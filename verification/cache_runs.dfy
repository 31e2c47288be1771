/** Runs of the document cache that end otherwise than its documentation says. */
module CacheRuns {
  import opened Bytes
  import opened FileWorld
  import opened CacheTracker
  import opened CacheState
  import opened CacheTheorems
  import opened CacheAdmission

  /** Nothing happens during the call. */
  function Still(w: World): Moments { Moments(w, w, w, w, w, w, w) }

  /** An engine that does all it is asked for. */
  const FINE: Engine := Engine(true, true, false, 0, true)

  // ---- Two calls of get admit a file

  /** The set of the tag has no mark at all. */
  predicate EmptySet(t: Tracker, tag: nat)
    requires |t.seen| == SLOTS
  {
    forall i :: Base(tag) <= i < Base(tag) + WAYS ==> t.seen[i] == 0
  }

  lemma EmptySetMark(t: Tracker, tag: nat)
    requires |t.seen| == SLOTS && EmptySet(t, tag) && tag > 1
    ensures Slot(t, tag) == (Base(tag), t) && Mark(t, tag) == 0
  {
    var ways := t.seen[Base(tag)..Base(tag) + WAYS];
    assert forall i :: 0 <= i < WAYS ==> ways[i] == t.seen[Base(tag) + i] == 0;
    assert FirstMatch(ways, tag) == WAYS;
    assert ways[0] == 0;
  }

  lemma OwnMark(t: Tracker, tag: nat)
    requires |t.seen| == SLOTS && t.seen[Base(tag)] == tag
    ensures Slot(t, tag) == (Base(tag), t) && Mark(t, tag) == tag
  {
    var ways := t.seen[Base(tag)..Base(tag) + WAYS];
    assert ways[0] == t.seen[Base(tag)];
  }

  /** A file that can be admitted at the moments of the call, into a cache with room, which has not noted it. */
  ghost predicate Ready(c: Cache, path: Text, id: FileId, tag: nat, m: Moments) {
    && CacheOk(c) && c.active && path != [] && path !in c.shelf.entries && |c.shelf.entries| < c.maxFiles
    && tag > 1 && EmptySet(c.tracker, tag)
    && StatOf(m.stat, path) == Some(id) && id.size <= c.maxFileBytes && !ChangedJustNow(m.clock.now, id)
    && CanonicalOf(m.path1, path).Some? && CanonicalOf(m.path2, path) == CanonicalOf(m.path1, path)
    && StatOf(m.stat2, path) == Some(id)
  }

  ghost function NewEntry(c: Cache, path: Text, id: FileId, m: Moments): Entry
    requires CanonicalOf(m.path1, path).Some?
  {
    Entry(CanonicalOf(m.path1, path).value, id, Record(path, ContentAt(m.read, path)), 0, c.query)
  }

  lemma FirstGet(c: Cache, path: Text, id: FileId, tag: nat, m: Moments)
    requires Ready(c, path, id, tag, m)
    ensures Get(c, path, tag, m, FINE).0 ==
      Missed(c).(tracker := c.tracker.(seen := c.tracker.seen[Base(tag) := tag]))
  {
    EmptySetMark(c.tracker, tag);
    GetInParts(c, path, tag, m, FINE);
    MarkSays(Missed(c), path, id, tag, m, FINE);
  }

  lemma SecondGet(c: Cache, path: Text, id: FileId, tag: nat, m: Moments)
    requires CacheOk(c) && c.tracker.seen[Base(tag)] == tag
    requires Ready(c.(tracker := c.tracker.(seen := c.tracker.seen[Base(tag) := 0])), path, id, tag, m)
    ensures var d := Get(c, path, tag, m, FINE).0;
      && d.shelf == Insert(c.shelf, path, NewEntry(c, path, id, m))
      && d.tracker == c.tracker.(seen := c.tracker.seen[Base(tag) := 0])
      && d.history == c.history.(admitted := c.history.admitted + 1)
      && d.query == c.query && d.active && d.maxFiles == c.maxFiles && d.maxFileBytes == c.maxFileBytes
  {
    OwnMark(c.tracker, tag);
    GetInParts(c, path, tag, m, FINE);
    MarkSays(Missed(c), path, id, tag, m, FINE);
    AdmitStores(Missed(c), path, id, Base(tag), m);
  }

  lemma AdmitStores(c: Cache, path: Text, id: FileId, i: nat, m: Moments)
    requires CacheOk(c) && path !in c.shelf.entries && |c.shelf.entries| < c.maxFiles && i < SLOTS
    requires !ChangedJustNow(m.clock.now, id) && StatOf(m.stat2, path) == Some(id)
    requires CanonicalOf(m.path1, path).Some? && CanonicalOf(m.path2, path) == CanonicalOf(m.path1, path)
    ensures var tried := c.(tally := c.tally.(refused := c.tally.refused + 1));
      Admit(c, path, id, i, m, FINE).0 == Store(tried, path, NewEntry(c, path, id, m), i)
  {
    var tried := c.(tally := c.tally.(refused := c.tally.refused + 1));
    assert Evict(tried) == tried;
  }

  /** Both calls: the record is there, the tracker as before, one more admitted. */
  lemma TwoGets(c: Cache, path: Text, id: FileId, tag: nat, m: Moments)
    requires Ready(c, path, id, tag, m)
    ensures var d := Get(c, path, tag, m, FINE).0;
      && CacheOk(d)
      && var e := Get(d, path, tag, m, FINE).0;
      && CacheOk(e) && e.shelf == Insert(c.shelf, path, NewEntry(c, path, id, m))
      && e.tracker == c.tracker && e.history == c.history.(admitted := c.history.admitted + 1)
      && e.query == c.query && e.active && e.maxFiles == c.maxFiles && e.maxFileBytes == c.maxFileBytes
  {
    var d := Get(c, path, tag, m, FINE).0;
    FirstGet(c, path, id, tag, m);
    assert c.tracker.seen[Base(tag) := tag][Base(tag) := 0] == c.tracker.seen;
    var d0 := d.(tracker := d.tracker.(seen := d.tracker.seen[Base(tag) := 0]));
    assert d0 == Missed(c);
    SecondGet(d, path, id, tag, m);
  }

  ghost function TwoCalls(path: Text, tag: nat, m: Moments): seq<Call> {
    [DoGet(path, tag, m, FINE), DoGet(path, tag, m, FINE)]
  }

  lemma AfterTwo(c: Cache, path: Text, tag: nat, m: Moments)
    requires CacheOk(c)
    ensures var d := Get(c, path, tag, m, FINE).0;
      CacheOk(d) && AfterCalls(c, TwoCalls(path, tag, m)) == Get(d, path, tag, m, FINE).0
  {
    var g := DoGet(path, tag, m, FINE);
    assert [g, g][..1] == [g] && [g][..0] == [];
    assert AfterCalls(c, []) == c;
    assert AfterCalls(c, [g]) == Get(c, path, tag, m, FINE).0;
  }

  lemma {:induction false} AfterBoth(c: Cache, a: seq<Call>, b: seq<Call>)
    requires CacheOk(c)
    ensures AfterCalls(c, a + b) == AfterCalls(AfterCalls(c, a), b)
    decreases |b|
  {
    if b == [] {
      assert a + b == a;
    } else {
      assert (a + b)[..|a + b| - 1] == a + b[..|b| - 1];
      AfterBoth(c, a, b[..|b| - 1]);
    }
  }

  /** A call for a file that changed goes on as if its record had not been there. */
  lemma ChangedIsMissed(c: Cache, path: Text, id: FileId, tag: nat, m: Moments)
    requires CacheOk(c) && path in c.shelf.entries && StatOf(m.stat, path) == Some(id) && c.shelf.entries[path].id != id
    ensures CacheOk(DropChanged(c, path))
    ensures c.active && path != [] && id.size <= c.maxFileBytes ==>
      Get(c, path, tag, m, FINE) == Get(DropChanged(c, path), path, tag, m, FINE)
  {
    DropChangedKeepsCache(c, path);
    GetInParts(c, path, tag, m, FINE);
    GetInParts(DropChanged(c, path), path, tag, m, FINE);
  }

  // ---- More admissions than maxFiles

  const NAME: Text := [97]
  const NODE: Node := (0, 1)

  /** A world with one file of the name. */
  function OneFile(now: int, inode: Inode): World {
    World(now, map[NODE := inode], map[NAME := Target(NAME, NODE)])
  }

  /** The file of the name is there, and was not changed just now. */
  ghost predicate Stands(w: World, id: FileId) {
    StatOf(w, NAME) == Some(id) && id.size <= 1024 && !ChangedJustNow(w.now, id) && CanonicalOf(w, NAME).Some?
  }

  /**
    * With room for one record, a query that reads a file twice, then twice more after the file was
    * written, admits it two times: more than theMaxFiles.
    */
  lemma AdmissionsExceed(w: World, v: World, idW: FileId, idV: FileId, a: nat, b: nat)
    requires Stands(w, idW) && Stands(v, idV) && idW != idV && Evolves(w, v) && a > 1 && b > 1
    ensures var calls := TwoCalls(NAME, a, Still(w)) + TwoCalls(NAME, b, Still(v));
      && CacheOk(Empty(1, 1024)) && InSequence(w, calls)
      && AfterCalls(Empty(1, 1024), calls).history == History(2, 0, 1)
      && AfterCalls(Empty(1, 1024), calls).history.admitted > AfterCalls(Empty(1, 1024), calls).maxFiles
  {
    AdmittedTwice(w, v, idW, idV, a, b);
    FourInSequence(w, v, a, b);
  }

  lemma AdmittedTwice(w: World, v: World, idW: FileId, idV: FileId, a: nat, b: nat)
    requires Stands(w, idW) && Stands(v, idV) && idW != idV && a > 1 && b > 1
    ensures var end := AfterCalls(Empty(1, 1024), TwoCalls(NAME, a, Still(w)) + TwoCalls(NAME, b, Still(v)));
      end.history == History(2, 0, 1) && end.maxFiles == 1
  {
    EmptyIsReady(idW, a, Still(w));
    AdmittedOnce(idW, a, Still(w));
    AfterBoth(Empty(1, 1024), TwoCalls(NAME, a, Still(w)), TwoCalls(NAME, b, Still(v)));
    AdmittedAgain(AfterCalls(Empty(1, 1024), TwoCalls(NAME, a, Still(w))), v, idV, b);
  }

  /** Such worlds there are: a file of one byte, and the same two seconds later after a write. */
  lemma AdmissionsCanExceed(a: nat, b: nat)
    requires a > 1 && b > 1
    ensures var w, v := OneFile(NS, Inode([1], 0, 0)), OneFile(3 * NS, Inode([2], NS, NS));
      var calls := TwoCalls(NAME, a, Still(w)) + TwoCalls(NAME, b, Still(v));
      && CacheOk(Empty(1, 1024)) && InSequence(w, calls)
      && AfterCalls(Empty(1, 1024), calls).history.admitted > AfterCalls(Empty(1, 1024), calls).maxFiles
  {
    var idW, idV := IdOf(NODE, Inode([1], 0, 0)), IdOf(NODE, Inode([2], NS, NS));
    JustNowIsByAge(NS, idW);
    JustNowIsByAge(3 * NS, idV);
    AdmissionsExceed(OneFile(NS, Inode([1], 0, 0)), OneFile(3 * NS, Inode([2], NS, NS)), idW, idV, a, b);
  }

  /** An empty cache has no mark of any file. */
  predicate NoMarks(t: Tracker) { |t.seen| == SLOTS && forall i :: 0 <= i < SLOTS ==> t.seen[i] == 0 }

  lemma EmptyIsReady(id: FileId, tag: nat, m: Moments)
    requires tag > 1 && StatOf(m.stat, NAME) == Some(id) == StatOf(m.stat2, NAME) && id.size <= 1024
    requires !ChangedJustNow(m.clock.now, id)
    requires CanonicalOf(m.path1, NAME).Some? && CanonicalOf(m.path2, NAME) == CanonicalOf(m.path1, NAME)
    ensures Ready(Empty(1, 1024), NAME, id, tag, m)
  {
  }

  lemma TwoCallsAdmit(c: Cache, path: Text, id: FileId, tag: nat, m: Moments)
    requires Ready(c, path, id, tag, m)
    ensures var e := AfterCalls(c, TwoCalls(path, tag, m));
      && e.shelf.entries == c.shelf.entries[path := NewEntry(c, path, id, m)]
      && e.tracker == c.tracker && e.history == c.history.(admitted := c.history.admitted + 1)
      && e.query == c.query && e.active && e.maxFiles == c.maxFiles && e.maxFileBytes == c.maxFileBytes
  {
    AfterTwo(c, path, tag, m);
    TwoGets(c, path, id, tag, m);
  }

  /** An empty cache after two calls for the one file, whatever was read of it. */
  lemma AdmittedOnce(id: FileId, tag: nat, m: Moments)
    requires Ready(Empty(1, 1024), NAME, id, tag, m)
    ensures var d := AfterCalls(Empty(1, 1024), TwoCalls(NAME, tag, m));
      && d.active && d.maxFiles == 1 && d.maxFileBytes == 1024 && d.history == History(1, 0, 0) && NoMarks(d.tracker)
      && d.shelf.entries.Keys == {NAME} && d.shelf.entries[NAME].query == d.query && d.shelf.entries[NAME].id == id
      && Some(d.shelf.entries[NAME].canonical) == CanonicalOf(m.path1, NAME)
      && d.shelf.entries[NAME].record.content == ContentAt(m.read, NAME)
  {
    TwoCallsAdmit(Empty(1, 1024), NAME, id, tag, m);
  }

  lemma AdmittedAgain(d: Cache, v: World, id: FileId, tag: nat)
    requires CacheOk(d) && d.active && tag > 1 && d.maxFiles == 1 && d.maxFileBytes == 1024 && EmptySet(d.tracker, tag)
    requires d.shelf.entries.Keys == {NAME} && d.shelf.entries[NAME].id != id && d.shelf.entries[NAME].query == d.query
    requires StatOf(v, NAME) == Some(id) && id.size <= 1024 && !ChangedJustNow(v.now, id) && CanonicalOf(v, NAME).Some?
    ensures var e := AfterCalls(d, TwoCalls(NAME, tag, Still(v)));
      e.history == History(d.history.admitted + 1, d.history.found, d.history.dropped + 1) && e.maxFiles == 1
  {
    SameAsDropped(d, id, tag, Still(v));
    DroppedIsReady(d, id, tag, Still(v));
    DroppedCounts(d);
    AdmittedAfresh(DropChanged(d, NAME), id, tag, Still(v));
  }

  lemma DroppedCounts(d: Cache)
    requires NAME in d.shelf.entries && d.shelf.entries[NAME].query == d.query
    ensures var e := DropChanged(d, NAME);
      e.history == d.history.(dropped := d.history.dropped + 1) && e.maxFiles == d.maxFiles
  {
  }

  lemma AdmittedAfresh(e: Cache, id: FileId, tag: nat, m: Moments)
    requires Ready(e, NAME, id, tag, m)
    ensures var f := AfterCalls(e, TwoCalls(NAME, tag, m));
      f.history == e.history.(admitted := e.history.admitted + 1) && f.maxFiles == e.maxFiles
  {
    TwoCallsAdmit(e, NAME, id, tag, m);
  }

  lemma DroppedIsReady(d: Cache, id: FileId, tag: nat, m: Moments)
    requires CacheOk(d) && d.active && tag > 1 && d.maxFiles == 1 && EmptySet(d.tracker, tag)
    requires d.shelf.entries.Keys == {NAME}
    requires StatOf(m.stat, NAME) == Some(id) == StatOf(m.stat2, NAME) && id.size <= d.maxFileBytes
    requires !ChangedJustNow(m.clock.now, id)
    requires CanonicalOf(m.path1, NAME).Some? && CanonicalOf(m.path2, NAME) == CanonicalOf(m.path1, NAME)
    ensures Ready(DropChanged(d, NAME), NAME, id, tag, m)
  {
    DropChangedKeepsCache(d, NAME);
    assert (d.shelf.entries - {NAME}).Keys == {};
    assert d.shelf.entries - {NAME} == map[];
  }

  lemma SameAsDropped(d: Cache, id: FileId, tag: nat, m: Moments)
    requires CacheOk(d) && d.active && NAME in d.shelf.entries && d.shelf.entries[NAME].id != id
    requires StatOf(m.stat, NAME) == Some(id) && id.size <= d.maxFileBytes
    ensures CacheOk(DropChanged(d, NAME))
    ensures AfterCalls(d, TwoCalls(NAME, tag, m)) == AfterCalls(DropChanged(d, NAME), TwoCalls(NAME, tag, m))
  {
    ChangedIsMissed(d, NAME, id, tag, m);
    AfterTwo(d, NAME, tag, m);
    AfterTwo(DropChanged(d, NAME), NAME, tag, m);
  }

  lemma FourInSequence(w: World, v: World, a: nat, b: nat)
    requires Evolves(w, v)
    ensures InSequence(w, TwoCalls(NAME, a, Still(w)) + TwoCalls(NAME, b, Still(v)))
  {
    var g, h := DoGet(NAME, a, Still(w), FINE), DoGet(NAME, b, Still(v), FINE);
    var calls := TwoCalls(NAME, a, Still(w)) + TwoCalls(NAME, b, Still(v));
    assert calls == [g, g, h, h];
    assert calls[..0] == [] && calls[..1] == [g] && calls[..2] == [g, g] && calls[..3] == [g, g, h];
    assert [g][..0] == [] && [g, g][..1] == [g] && [g, g, h][..2] == [g, g];
    assert WorldAfter(w, [g]) == w && WorldAfter(w, [g, g]) == w && WorldAfter(w, [g, g, h]) == v;
  }

  // ---- A wrong record is served

  /**
    * Whenever an admission read neither the file it looked at nor its bytes, the next call of get for the
    * path, with nothing happening since the second stat, gives a query what the file does not hold.
    */
  lemma WrongAdmissionIsServed(c: Cache, path: Text, hash: nat, m: Moments, eng: Engine)
    requires CacheOk(c) && c.active && path != [] && InOrder(m) && m.path2 == m.stat2
    requires StatOf(m.stat, path).Some? && StatOf(m.stat, path).value.size <= c.maxFileBytes
    requires Keeps1(c, Get(c, path, hash, m, eng).0, path, StatOf(m.stat, path).value, m)
    requires !(SameFile(m, path) || SameBytes(m, path))
    ensures CacheOk(Get(c, path, hash, m, eng).0)
    ensures !HitsAreRight(Get(c, path, hash, m, eng).0, [DoGet(path, hash, Still(m.stat2), FINE)])
  {
    var d := Get(c, path, hash, m, eng).0;
    var id := StatOf(m.stat, path).value;
    var still := Still(m.stat2);
    AdmittedIsFreshIff(d.shelf.entries[path], path, id, m);
    AdmittedIsUntouched(d.shelf.entries[path], path, id, m);
    GetKeepsActive(c, path, hash, m, eng);
    assert Hits(d, path, still);
    HitGives(d, path, hash, still, FINE);
    assert !RightResult(Get(d, path, hash, still, FINE).1, path, still);
    assert AfterCalls(d, []) == d;
    WrongLast(d, [], DoGet(path, hash, still, FINE));
    assert [] + [DoGet(path, hash, still, FINE)] == [DoGet(path, hash, still, FINE)];
  }

  lemma GetKeepsActive(c: Cache, path: Text, hash: nat, m: Moments, eng: Engine)
    requires CacheOk(c)
    ensures var d := Get(c, path, hash, m, eng).0; d.active == c.active && d.maxFileBytes == c.maxFileBytes
  {
    var at := AtMiss(c, path, m);
    GetInParts(c, path, hash, m, eng);
    AtMissIsOk(c, path, m);
    if at.Some? { MissTries(at.value, path, StatOf(m.stat, path).value, hash, m, eng); }
  }

  /** The world, but for the name: that leads to another file. */
  function Elsewhere(w: World, other: Node): World { w.(targets := map[NAME := Target(NAME, other)]) }

  /**
    * A path that leads to another file just while it is read to be kept, and back again, leaves no trace
    * in the metadata: the third call gives the query the other file's content.
    */
  lemma RepointedReadIsServed(w: World, id: FileId, other: Node, tag: nat)
    requires tag > 1 && Stands(w, id) && ContentAt(Elsewhere(w, other), NAME) != ContentAt(w, NAME)
    ensures var m := Still(w).(read := Elsewhere(w, other));
      var calls := TwoCalls(NAME, tag, m) + [DoGet(NAME, tag, Still(w), FINE)];
      && CacheOk(Empty(1, 1024)) && InSequence(w, calls) && !HitsAreRight(Empty(1, 1024), calls)
  {
    var m := Still(w).(read := Elsewhere(w, other));
    EmptyIsReady(id, tag, m);
    ThirdCallIsWrong(w, id, tag, m);
    ThreeInSequence(w, tag, m);
  }

  lemma ThirdCallIsWrong(w: World, id: FileId, tag: nat, m: Moments)
    requires Stands(w, id) && m.path1 == w && Ready(Empty(1, 1024), NAME, id, tag, m)
    requires ContentAt(m.read, NAME) != ContentAt(w, NAME)
    ensures !HitsAreRight(Empty(1, 1024), TwoCalls(NAME, tag, m) + [DoGet(NAME, tag, Still(w), FINE)])
  {
    AdmittedOnce(id, tag, m);
    WrongHit(AfterCalls(Empty(1, 1024), TwoCalls(NAME, tag, m)), w, tag);
    WrongLast(Empty(1, 1024), TwoCalls(NAME, tag, m), DoGet(NAME, tag, Still(w), FINE));
  }

  lemma WrongLast(c: Cache, calls: seq<Call>, last: Call)
    requires CacheOk(c) && !HitIsRight(AfterCalls(c, calls), last)
    ensures !HitsAreRight(c, calls + [last])
  {
    var all := calls + [last];
    assert all[..|calls|] == calls && all[|calls|] == last;
  }

  /** Two files of one byte each, old enough, of which the name leads to the first. */
  function TwoFiles(): World {
    World(NS, map[NODE := Inode([1], 0, 0), (0, 2) := Inode([2], 0, 0)], map[NAME := Target(NAME, NODE)])
  }

  /** Such a world there is. */
  lemma RepointedReadCanBeServed(tag: nat)
    requires tag > 1
    ensures var w := TwoFiles();
      && Stands(w, IdOf(NODE, Inode([1], 0, 0))) && ContentAt(Elsewhere(w, (0, 2)), NAME) != ContentAt(w, NAME)
      && !HitsAreRight(Empty(1, 1024),
           TwoCalls(NAME, tag, Still(w).(read := Elsewhere(w, (0, 2)))) + [DoGet(NAME, tag, Still(w), FINE)])
  {
    var w := TwoFiles();
    JustNowIsByAge(NS, IdOf(NODE, Inode([1], 0, 0)));
    RepointedReadIsServed(w, IdOf(NODE, Inode([1], 0, 0)), (0, 2), tag);
  }

  lemma WrongHit(d: Cache, w: World, tag: nat)
    requires CacheOk(d) && d.active && d.maxFileBytes == 1024 && NAME in d.shelf.entries
    requires Some(d.shelf.entries[NAME].id) == StatOf(w, NAME) && d.shelf.entries[NAME].id.size <= 1024
    requires Some(d.shelf.entries[NAME].canonical) == CanonicalOf(w, NAME)
    requires d.shelf.entries[NAME].record.content != ContentAt(w, NAME)
    ensures !HitIsRight(d, DoGet(NAME, tag, Still(w), FINE))
  {
    HitGives(d, NAME, tag, Still(w), FINE);
  }

  lemma ThreeInSequence(w: World, tag: nat, m: Moments)
    requires m.stat == w == m.path2 && InOrder(m)
    ensures InSequence(w, TwoCalls(NAME, tag, m) + [DoGet(NAME, tag, Still(w), FINE)])
  {
    var g, h := DoGet(NAME, tag, m, FINE), DoGet(NAME, tag, Still(w), FINE);
    var calls := TwoCalls(NAME, tag, m) + [h];
    assert calls == [g, g, h];
    assert calls[..0] == [] && calls[..1] == [g] && calls[..2] == [g, g];
    assert [g][..0] == [] && [g, g][..1] == [g];
    assert WorldAfter(w, [g]) == w && WorldAfter(w, [g, g]) == w;
  }
}
