/** A run of the document cache in which a file that was refused, and did not change, is read again. */
module CacheRereads {
  import opened Bytes
  import opened FileWorld
  import opened CacheTracker
  import opened CacheState
  import opened CacheTheorems
  import opened CacheAdmission
  import opened CacheRuns

  /** An engine whose records hold an error. */
  const FAILING: Engine := Engine(true, true, true, 0, true)

  // ---- One set of the tracker, while nothing is kept

  /** The ways of a set, the victim, and how many files were read. */
  datatype Ways8 = Ways8(ways: seq<nat>, victim: bv64, tries: int)

  /** What a lookup of a file does to the set of its tag if reading it gives an error. */
  function Look(s: Ways8, tag: nat): Ways8
    requires |s.ways| == WAYS
    ensures |Look(s, tag).ways| == WAYS
  {
    var i := FirstMatch(s.ways, tag);
    if i < WAYS then
      if s.ways[i] == tag then s.(ways := s.ways[i := RefusedTag(tag)], tries := s.tries + 1) else s
    else if FirstEmpty(s.ways) < WAYS then s.(ways := s.ways[FirstEmpty(s.ways) := tag])
    else
      var v := XorShift(s.victim);
      HighBitsBelowWays(v);
      s.(ways := s.ways[HighBits(v) as nat := tag], victim := v)
  }

  /** The cache keeps nothing, and its tracker has such a set. */
  ghost predicate Stage(c: Cache, slots: nat, s: Ways8) {
    && CacheOk(c) && c.active && c.maxFileBytes == 1024 && c.shelf.entries == map[] && slots < SETS
    && c.tracker.seen[slots * WAYS..slots * WAYS + WAYS] == s.ways
    && c.tracker.victim == s.victim && Tries(c) == s.tries
  }

  /** The path leads to a file that is worth a try. */
  ghost predicate StandsAt(w: World, path: Text) {
    && path != [] && StatOf(w, path).Some?
    && StatOf(w, path).value.size <= 1024 && !ChangedJustNow(w.now, StatOf(w, path).value)
  }

  function Ask(w: World, path: Text, tag: nat): Call { DoGet(path, tag, Still(w), FAILING) }

  /** What a lookup writes, in the tracker and in the set. */
  lemma LookWrites(t: Tracker, s: Ways8, tag: nat)
    requires |t.seen| == SLOTS && |s.ways| == WAYS && Ways(t, tag) == s.ways && t.victim == s.victim
    ensures var (i, u) := Slot(t, tag); var j := i - Base(tag);
      && 0 <= j < WAYS && s.ways[j] == Mark(t, tag)
      && (Mark(t, tag) == RefusedTag(tag) ==> Look(s, tag) == s && u == t)
      && (Mark(t, tag) == tag ==>
            Look(s, tag) == s.(ways := s.ways[j := RefusedTag(tag)], tries := s.tries + 1) && u == t)
      && (!Matches(Mark(t, tag), tag) ==> Look(s, tag) == s.(ways := s.ways[j := tag], victim := u.victim))
  {
    RefusedIsItsOwnInverse(tag);
    SlotHolds(t, tag);
  }

  lemma SetAfter(seen: seq<nat>, base: nat, i: nat, v: nat)
    requires base <= i < base + WAYS <= |seen|
    ensures seen[i := v][base..base + WAYS] == seen[base..base + WAYS][i - base := v]
  {
  }

  /** The call does what its mark says, and keeps nothing. */
  lemma AskDoes(c: Cache, w: World, path: Text, tag: nat)
    requires CacheOk(c) && c.active && c.maxFileBytes == 1024 && c.shelf.entries == map[]
    requires StandsAt(w, path) && tag > 1
    ensures var d := Call1(c, Ask(w, path, tag)); var (i, t) := Slot(c.tracker, tag); var mark := Mark(c.tracker, tag);
      && d.active && d.maxFileBytes == 1024 && d.shelf.entries == map[]
      && Tries(d) == Tries(c) + (if mark == tag then 1 else 0)
      && d.tracker == (if mark == RefusedTag(tag) then t
                       else t.(seen := t.seen[i := if mark == tag then RefusedTag(tag) else tag]))
  {
    var id := StatOf(w, path).value;
    GetInParts(c, path, tag, Still(w), FAILING);
    MarkSays(Missed(c), path, id, tag, Still(w), FAILING);
    var (i, t) := Slot(c.tracker, tag);
    RefusedIsItsOwnInverse(tag);
    ErrorRefuses(Missed(c).(tracker := t), path, id, i, w);
  }

  lemma AskTracks(c: Cache, s: Ways8, w: World, path: Text, tag: nat)
    requires Stage(c, tag % SETS, s) && StandsAt(w, path) && tag > 1
    ensures Stage(Call1(c, Ask(w, path, tag)), tag % SETS, Look(s, tag))
  {
    AskDoes(c, w, path, tag);
    LookWrites(c.tracker, s, tag);
    var i := Slot(c.tracker, tag).0;
    SetAfter(c.tracker.seen, Base(tag), i, tag);
    SetAfter(c.tracker.seen, Base(tag), i, RefusedTag(tag));
  }

  lemma ErrorRefuses(c: Cache, path: Text, id: FileId, i: nat, w: World)
    requires RecordsOk(c) && c.shelf.entries == map[] && i < |c.tracker.seen|
    requires StandsAt(w, path) && StatOf(w, path) == Some(id)
    ensures Admit(c, path, id, i, Still(w), FAILING).0 == Refuse(Tried(c), i)
  {
  }

  // ---- Calls for files of one set

  /** A path with the hash of its key and metadata. */
  datatype File = File(path: Text, tag: nat)

  function Asks(w: World, files: seq<File>): seq<Call> {
    seq(|files|, i requires 0 <= i < |files| => Ask(w, files[i].path, files[i].tag))
  }

  function LookAll(s: Ways8, files: seq<File>): (r: Ways8)
    requires |s.ways| == WAYS
    ensures |r.ways| == WAYS
  {
    if files == [] then s else Look(LookAll(s, files[..|files| - 1]), files[|files| - 1].tag)
  }

  ghost predicate AllStand(w: World, files: seq<File>, slots: nat) {
    forall i :: 0 <= i < |files| ==> StandsAt(w, files[i].path) && files[i].tag > 1 && files[i].tag % SETS == slots
  }

  lemma {:induction false} AsksTrack(c: Cache, slots: nat, s: Ways8, w: World, files: seq<File>)
    requires Stage(c, slots, s) && AllStand(w, files, slots)
    ensures Stage(AfterCalls(c, Asks(w, files)), slots, LookAll(s, files))
  {
    if files != [] {
      var most, last := files[..|files| - 1], files[|files| - 1];
      assert Asks(w, files)[..|files| - 1] == Asks(w, most);
      AsksTrack(c, slots, s, w, most);
      AskTracks(AfterCalls(c, Asks(w, most)), LookAll(s, most), w, last.path, last.tag);
    }
  }

  lemma {:induction false} WorldStays(w: World, files: seq<File>)
    ensures WorldAfter(w, Asks(w, files)) == w
  {
    if files != [] {
      assert Asks(w, files)[..|files| - 1] == Asks(w, files[..|files| - 1]);
      WorldStays(w, files[..|files| - 1]);
    }
  }

  lemma AsksInSequence(w: World, files: seq<File>)
    ensures InSequence(w, Asks(w, files))
  {
    forall i | 0 <= i < |files|
      ensures Follows(WorldAfter(w, Asks(w, files)[..i]), Asks(w, files)[i])
    {
      assert Asks(w, files)[..i] == Asks(w, files[..i]);
      WorldStays(w, files[..i]);
    }
  }

  lemma LookNext(s: Ways8, p: seq<File>, f: File, q: seq<File>)
    requires |s.ways| == WAYS && q == p + [f]
    ensures LookAll(s, q) == Look(LookAll(s, p), f.tag)
  {
    assert q[..|p|] == p;
  }

  // ---- What the lookups do to the set

  /** Marks of other files: neither empty nor of the tag. */
  ghost predicate Others(marks: seq<nat>, tag: nat) {
    forall i :: 0 <= i < |marks| ==> marks[i] != 0 && !Matches(marks[i], tag)
  }

  /** A set whose first ways have the marks. */
  function Filled(marks: seq<nat>): seq<nat> { marks + if |marks| < WAYS then seq(WAYS - |marks|, _ => 0) else [] }

  lemma LookNotes(s: Ways8, marks: seq<nat>, tag: nat)
    requires |marks| < WAYS && s.ways == Filled(marks) && Others(marks, tag) && tag > 1
    ensures Look(s, tag) == s.(ways := Filled(marks + [tag]))
  {
    assert s.ways[|marks|] == 0;
    assert FirstEmpty(s.ways) == |marks|;
  }

  lemma LookRefuses(s: Ways8, i: nat, tag: nat)
    requires |s.ways| == WAYS && i < WAYS && s.ways[i] == tag && Others(s.ways[..i], tag)
    ensures Look(s, tag) == s.(ways := s.ways[i := RefusedTag(tag)], tries := s.tries + 1)
  {
    assert forall j :: 0 <= j < i ==> s.ways[j] == s.ways[..i][j];
    assert FirstMatch(s.ways, tag) == i;
  }

  lemma LookTakes(s: Ways8, tag: nat)
    requires |s.ways| == WAYS && Others(s.ways, tag)
    ensures HighBits(XorShift(s.victim)) < 8
    ensures Look(s, tag) == s.(ways := s.ways[HighBits(XorShift(s.victim)) as nat := tag], victim := XorShift(s.victim))
  {
    HighBitsBelowWays(XorShift(s.victim));
  }

  /** The set in a new cache. */
  const AT_FIRST: Ways8 := Ways8(Filled([]), VICTIM, 0)

  const VICTIM: bv64 := 0x9E3779B97F4A7C15

  lemma FirstVictims()
    ensures HighBits(XorShift(VICTIM)) == 6 && HighBits(XorShift(XorShift(VICTIM))) == 3
  {
  }

  // ---- The run

  function Tags(files: seq<File>): seq<nat> { seq(|files|, i requires 0 <= i < |files| => files[i].tag) }

  ghost predicate OneSet(tags: seq<nat>, slots: nat) {
    NoDup(tags) && forall i :: 0 <= i < |tags| ==> tags[i] > 1 && tags[i] % SETS == slots
  }

  lemma OtherTags(tags: seq<nat>, tag: nat)
    requires OneSet(tags + [tag], tag % SETS)
    ensures Others(tags, tag)
  {
    RefusedIsItsOwnInverse(tag);
    forall i | 0 <= i < |tags|
      ensures tags[i] != 0 && !Matches(tags[i], tag)
    {
      assert (tags + [tag])[i] == tags[i] && (tags + [tag])[|tags|] == tag;
    }
  }

  lemma FirstOfSet(tags: seq<nat>, tag: nat, slots: nat)
    requires OneSet(tags + [tag], slots)
    ensures OneSet(tags, slots) && tag > 1 && tag % SETS == slots
  {
    var all := tags + [tag];
    assert all[|tags|] == tag && all[..|tags|] == tags;
  }

  /** The files are noted one after the other. */
  lemma {:induction false} AllAreNoted(s: Ways8, slots: nat, files: seq<File>)
    requires |files| <= WAYS && s.ways == Filled([]) && OneSet(Tags(files), slots)
    ensures LookAll(s, files) == s.(ways := Filled(Tags(files)))
  {
    if files != [] {
      var most, last := files[..|files| - 1], files[|files| - 1];
      assert Tags(files) == Tags(most) + [last.tag];
      FirstOfSet(Tags(most), last.tag, slots);
      AllAreNoted(s, slots, most);
      OtherTags(Tags(most), last.tag);
      LookNotes(LookAll(s, most), Tags(most), last.tag);
    }
  }

  /** Six files are noted, then another is noted and refused. */
  lemma SeventhIsRefused(s: Ways8, six: seq<File>, f: File)
    requires |six| == 6 && s.ways == Filled([]) && OneSet(Tags(six + [f]), f.tag % SETS)
    ensures LookAll(s, six + [f, f]) == s.(ways := Filled(Tags(six) + [RefusedTag(f.tag)]), tries := s.tries + 1)
  {
    var seven := six + [f];
    var noted := LookAll(s, seven);
    AllAreNoted(s, f.tag % SETS, seven);
    assert Tags(seven) == Tags(six) + [f.tag];
    OtherTags(Tags(six), f.tag);
    assert noted.ways[..6] == Tags(six);
    LookRefuses(noted, 6, f.tag);
    LookNext(s, seven, f, six + [f, f]);
    assert Filled(Tags(seven))[6 := RefusedTag(f.tag)] == Filled(Tags(six) + [RefusedTag(f.tag)]);
  }

  /** Two more files: the first fills the set, and the second takes the way of the refused mark. */
  lemma RefusedIsReplaced(s: Ways8, six: seq<nat>, tag: nat, a: nat, b: nat)
    requires |six| == 6 && s.ways == Filled(six + [RefusedTag(tag)]) && s.victim == VICTIM
    requires Others(six, a) && Others(six + [a], b) && a > 1 && tag > 1 && a != tag && b != tag
    requires tag % SETS == a % SETS == b % SETS
    ensures Look(Look(s, a), b) == Ways8(six + [b, a], XorShift(VICTIM), s.tries)
  {
    var marks := six + [RefusedTag(tag)];
    RefusedMarkIsUnambiguous(tag, a);
    RefusedMarkIsUnambiguous(tag, b);
    LookNotes(s, marks, a);
    var full := marks + [a];
    assert Filled(full) == full;
    assert forall i :: 0 <= i < 8 ==>
      full[i] == if i < 6 then (six + [a])[i] else if i == 6 then RefusedTag(tag) else (six + [a])[6];
    FirstVictims();
    LookTakes(Look(s, a), b);
    assert full[6 := b] == six + [b, a];
  }

  /** The file whose mark is gone is noted again, and read again. */
  lemma GoneIsReadAgain(s: Ways8, tag: nat)
    requires |s.ways| == WAYS && Others(s.ways, tag) && s.victim == XorShift(VICTIM)
    ensures Look(s, tag).tries == s.tries && Look(Look(s, tag), tag).tries == s.tries + 1
  {
    FirstVictims();
    LookTakes(s, tag);
    assert s.ways[3 := tag][..3] == s.ways[..3];
    LookRefuses(Look(s, tag), 3, tag);
  }

  lemma FourLooks(s: Ways8, six: seq<nat>, a: nat, b: nat, tag: nat)
    requires |six| == 6 && s == Ways8(Filled(six + [RefusedTag(tag)]), VICTIM, 1)
    requires Others(six, a) && Others(six + [a], b) && Others(six + [b, a], tag) && a > 1 && tag > 1
    requires a != tag && b != tag && tag % SETS == a % SETS == b % SETS
    ensures var t := Look(Look(Look(s, a), b), tag); t.tries == 1 && Look(t, tag).tries == 2
  {
    RefusedIsReplaced(s, six, tag, a, b);
    GoneIsReadAgain(Look(Look(s, a), b), tag);
  }

  /** The lookups of the run. */
  lemma RunOfLooks(s: Ways8, six: seq<File>, a: File, b: File, f: File, p: seq<File>, q: seq<File>, r: seq<File>)
    requires |six| == 6 && OneSet(Tags(six + [a, b, f]), f.tag % SETS)
    requires s.ways == Filled([]) && s.victim == VICTIM && s.tries == 0
    requires p == six + [f, f] && q == p + [a, b, f] && r == q + [f]
    ensures LookAll(s, p) == Ways8(Filled(Tags(six) + [RefusedTag(f.tag)]), VICTIM, 1)
    ensures LookAll(s, q).tries == 1 && LookAll(s, r).tries == 2
  {
    SixAndThree(six, a, b, f);
    SeventhIsRefused(s, six, f);
    FourLooks(LookAll(s, p), Tags(six), a.tag, b.tag, f.tag);
    LookFourMore(s, p, a, b, f, q, r);
  }

  lemma LookFourMore(s: Ways8, p: seq<File>, a: File, b: File, f: File, q: seq<File>, r: seq<File>)
    requires |s.ways| == WAYS && q == p + [a, b, f] && r == q + [f]
    ensures LookAll(s, q) == Look(Look(Look(LookAll(s, p), a.tag), b.tag), f.tag)
    ensures LookAll(s, r) == Look(LookAll(s, q), f.tag)
  {
    LookNext(s, p, a, p + [a]);
    LookNext(s, p + [a], b, p + [a] + [b]);
    LookNext(s, p + [a] + [b], f, q);
    LookNext(s, q, f, r);
  }

  lemma LastOfThree(tags: seq<nat>, a: nat, b: nat, tag: nat, slots: nat)
    requires OneSet(tags + [a] + [b] + [tag], slots)
    requires Others(tags + [a] + [b], tag)
    ensures OneSet(tags + [tag], slots) && a != tag && b != tag && Others(tags + [b, a], tag)
  {
    var all, n := tags + [a] + [b] + [tag], |tags|;
    assert all[..n] == tags && all[n] == a && all[n + 1] == b && all[n + 2] == tag;
    assert (tags + [a] + [b])[n] == a && (tags + [a] + [b])[n + 1] == b;
    forall i | 0 <= i < n
      ensures all[i] == tags[i] == (tags + [tag])[i] == (tags + [b, a])[i] == (tags + [a] + [b])[i]
    {
    }
  }

  lemma SixAndThree(six: seq<File>, a: File, b: File, f: File)
    requires |six| == 6 && OneSet(Tags(six + [a, b, f]), f.tag % SETS)
    ensures OneSet(Tags(six + [f]), f.tag % SETS)
    ensures Others(Tags(six), a.tag) && Others(Tags(six) + [a.tag], b.tag) && Others(Tags(six) + [b.tag, a.tag], f.tag)
    ensures a.tag > 1 && f.tag > 1 && a.tag != f.tag && b.tag != f.tag && a.tag % SETS == b.tag % SETS == f.tag % SETS
  {
    var all, tags, slots := Tags(six + [a, b, f]), Tags(six), f.tag % SETS;
    assert all == tags + [a.tag] + [b.tag] + [f.tag];
    FirstOfSet(tags + [a.tag] + [b.tag], f.tag, slots);
    OtherTags(tags + [a.tag] + [b.tag], f.tag);
    FirstOfSet(tags + [a.tag], b.tag, slots);
    OtherTags(tags + [a.tag], b.tag);
    FirstOfSet(tags, a.tag, slots);
    OtherTags(tags, a.tag);
    LastOfThree(tags, a.tag, b.tag, f.tag, slots);
    assert Tags(six + [f]) == tags + [f.tag];
  }

  /**
    * Nine files of one set that do not change. One is noted, read and refused; lookups of two others then
    * take its place, and the second lookup from there on reads it again.
    */
  lemma RefusedIsReadAgain(maxFiles: nat, w: World, six: seq<File>, a: File, b: File, f: File)
    requires maxFiles > 0 && |six| == 6 && OneSet(Tags(six + [a, b, f]), f.tag % SETS)
    requires forall g :: g in six + [a, b, f] ==> StandsAt(w, g.path)
    ensures var e := Empty(maxFiles, 1024);
      && CacheOk(e) && InSequence(w, Asks(w, six + [f, f, a, b, f, f]))
      && IsRefused(AfterCalls(e, Asks(w, six + [f, f])).tracker, f.tag)
      && Tries(AfterCalls(e, Asks(w, six + [f, f, a, b, f]))) == 1
      && Tries(AfterCalls(e, Asks(w, six + [f, f, a, b, f, f]))) == 2
  {
    AsksInSequence(w, six + [f, f, a, b, f, f]);
    RunOfLooks(AT_FIRST, six, a, b, f, six + [f, f], six + [f, f, a, b, f], six + [f, f, a, b, f, f]);
    TheyStand(w, six, a, b, f);
    RefusedAfter(maxFiles, w, six + [f, f], f.tag);
    TriesAfter(maxFiles, w, six + [f, f, a, b, f], f.tag);
    TriesAfter(maxFiles, w, six + [f, f, a, b, f, f], f.tag);
  }

  lemma TriesAfter(maxFiles: nat, w: World, files: seq<File>, tag: nat)
    requires maxFiles > 0 && AllStand(w, files, tag % SETS)
    ensures CacheOk(Empty(maxFiles, 1024))
    ensures Tries(AfterCalls(Empty(maxFiles, 1024), Asks(w, files))) == LookAll(AT_FIRST, files).tries
  {
    SetAtFirst(maxFiles, tag % SETS);
    AsksTrack(Empty(maxFiles, 1024), tag % SETS, AT_FIRST, w, files);
  }

  lemma RefusedAfter(maxFiles: nat, w: World, files: seq<File>, tag: nat)
    requires maxFiles > 0 && AllStand(w, files, tag % SETS) && tag > 1
    requires LookAll(AT_FIRST, files).ways[6] == RefusedTag(tag)
    ensures CacheOk(Empty(maxFiles, 1024))
    ensures IsRefused(AfterCalls(Empty(maxFiles, 1024), Asks(w, files)).tracker, tag)
  {
    SetAtFirst(maxFiles, tag % SETS);
    AsksTrack(Empty(maxFiles, 1024), tag % SETS, AT_FIRST, w, files);
    MarkInStage(AfterCalls(Empty(maxFiles, 1024), Asks(w, files)), LookAll(AT_FIRST, files), tag);
  }

  lemma MarkInStage(c: Cache, s: Ways8, tag: nat)
    requires Stage(c, tag % SETS, s) && tag > 1 && s.ways[6] == RefusedTag(tag)
    ensures IsRefused(c.tracker, tag)
  {
    var i := Base(tag) + 6;
    assert c.tracker.seen[i] == s.ways[6];
    MarkIsFound(c.tracker, tag, i);
  }

  lemma SetAtFirst(maxFiles: nat, slots: nat)
    requires maxFiles > 0 && slots < SETS
    ensures Stage(Empty(maxFiles, 1024), slots, AT_FIRST)
  {
  }

  lemma TheyStand(w: World, six: seq<File>, a: File, b: File, f: File)
    requires |six| == 6 && OneSet(Tags(six + [a, b, f]), f.tag % SETS)
    requires forall g :: g in six + [a, b, f] ==> StandsAt(w, g.path)
    ensures AllStand(w, six + [f, f], f.tag % SETS)
    ensures AllStand(w, six + [f, f, a, b, f], f.tag % SETS)
    ensures AllStand(w, six + [f, f, a, b, f, f], f.tag % SETS)
  {
    var all, slots := six + [a, b, f], f.tag % SETS;
    forall g | g in all
      ensures StandsAt(w, g.path) && g.tag > 1 && g.tag % SETS == slots
    {
      var i :| 0 <= i < |all| && all[i] == g;
      assert Tags(all)[i] == g.tag;
    }
    assert a in all && b in all && f in all && forall g :: g in six ==> g in all;
    StandingAdd(w, six, [f, f], slots);
    StandingAdd(w, six, [f, f, a, b, f], slots);
    StandingAdd(w, six, [f, f, a, b, f, f], slots);
  }

  lemma StandingAdd(w: World, p: seq<File>, q: seq<File>, slots: nat)
    requires forall g :: g in p || g in q ==> StandsAt(w, g.path) && g.tag > 1 && g.tag % SETS == slots
    ensures AllStand(w, p + q, slots)
  {
    forall i | 0 <= i < |p + q|
      ensures StandsAt(w, (p + q)[i].path) && (p + q)[i].tag > 1 && (p + q)[i].tag % SETS == slots
    {
      assert if i < |p| then (p + q)[i] in p else (p + q)[i] in q;
    }
  }

  function Name(i: nat): Text
    requires i < 9
  {
    [97 + i]
  }

  /** Nine names of an old file of one byte. */
  function NineNames(): World {
    World(NS, map[NODE := Inode([1], 0, 0)], map i: nat | i < 9 :: Name(i) := Target(Name(i), NODE))
  }

  function Nine(tags: seq<nat>): seq<File>
    requires |tags| == 9
  {
    seq(9, i requires 0 <= i < 9 => File(Name(i), tags[i]))
  }

  lemma NameStands(i: nat)
    requires i < 9
    ensures StandsAt(NineNames(), Name(i))
  {
    assert NineNames().targets[Name(i)] == Target(Name(i), NODE);
    JustNowIsByAge(NS, IdOf(NODE, Inode([1], 0, 0)));
  }

  /** Such a world there is, for any nine hashes of one set. */
  lemma RefusedCanBeReadAgain(maxFiles: nat, tags: seq<nat>)
    requires maxFiles > 0 && |tags| == 9 && OneSet(tags, tags[8] % SETS)
    ensures var w, e := NineNames(), Empty(maxFiles, 1024);
      var six, a, b, f := Nine(tags)[..6], Nine(tags)[6], Nine(tags)[7], Nine(tags)[8];
      && CacheOk(e) && InSequence(w, Asks(w, six + [f, f, a, b, f, f]))
      && IsRefused(AfterCalls(e, Asks(w, six + [f, f])).tracker, f.tag)
      && Tries(AfterCalls(e, Asks(w, six + [f, f, a, b, f]))) == 1
      && Tries(AfterCalls(e, Asks(w, six + [f, f, a, b, f, f]))) == 2
  {
    var nine := Nine(tags);
    assert nine[..6] + [nine[6], nine[7], nine[8]] == nine;
    assert Tags(nine) == tags;
    forall g | g in nine
      ensures StandsAt(NineNames(), g.path)
    {
      var i :| 0 <= i < 9 && nine[i] == g;
      NameStands(i);
    }
    RefusedIsReadAgain(maxFiles, NineNames(), nine[..6], nine[6], nine[7], nine[8]);
  }
}
