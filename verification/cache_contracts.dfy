/** What the calls of the document cache do, by the files, paths and times themselves. */
module CacheContracts {
  import opened Bytes
  import opened FileWorld
  import opened CacheTracker
  import opened CacheState
  import opened CacheTheorems
  import opened CacheAdmission

  // ---- Whether a file is the one a record was read from

  /** The path leads to a file with the device, the inode number, the size and the times of the entry. */
  ghost predicate SameMetadata(w: World, path: Text, id: FileId) {
    && path in w.targets && w.targets[path].node in w.inodes
    && var n, i := w.targets[path].node, w.inodes[w.targets[path].node];
    && n.0 == id.dev && n.1 == id.ino && |i.content| == id.size
    && i.mtime / 1_000_000_000 == id.mtimeSec && i.mtime % 1_000_000_000 == id.mtimeNsec
    && i.ctime / 1_000_000_000 == id.ctimeSec && i.ctime % 1_000_000_000 == id.ctimeNsec
  }

  ghost predicate SamePath(w: World, path: Text, canonical: Text) {
    path in w.targets && w.targets[path].canonical == canonical
  }

  lemma MetadataIs(w: World, path: Text, id: FileId)
    ensures StatOf(w, path) == Some(id) <==> SameMetadata(w, path, id)
  {
  }

  lemma PathIs(w: World, path: Text, canonical: Text)
    ensures CanonicalOf(w, path) == Some(canonical) <==> SamePath(w, path, canonical)
  {
  }

  // ---- set_active()

  /** x stands before y in the list. */
  ghost predicate Before(q: seq<Text>, x: Text, y: Text) { exists i, j :: 0 <= i < j < |q| && q[i] == x && q[j] == y }

  lemma BeforeCons(q: seq<Text>, k: Text, x: Text, y: Text)
    ensures Before([k] + q, x, y) <==> (x == k && y in q) || Before(q, x, y)
  {
    var all := [k] + q;
    if i, j :| 0 <= i < j < |all| && all[i] == x && all[j] == y {
      assert q[j - 1] == y;
      if i > 0 { assert q[i - 1] == x; }
    }
    if i, j :| 0 <= i < j < |q| && q[i] == x && q[j] == y { assert all[i + 1] == x && all[j + 1] == y; }
    if x == k && y in q {
      var j :| 0 <= j < |q| && q[j] == y;
      assert all[0] == x && all[j + 1] == y;
    }
  }

  lemma {:induction false} KeepKeepsOrder(q: seq<Text>, gone: set<Text>, x: Text, y: Text)
    requires NoDup(q) && x !in gone && y !in gone
    ensures Before(Keep(q, gone), x, y) <==> Before(q, x, y)
  {
    if q != [] {
      assert q == [q[0]] + q[1..];
      KeepKeepsOrder(q[1..], gone, x, y);
      KeepIsExact(q[1..], gone);
      BeforeCons(q[1..], q[0], x, y);
      BeforeCons(Keep(q[1..], gone), q[0], x, y);
    }
  }

  /** A query that may use the cache finds exactly the records of files that have not changed, as they were. */
  lemma SweepIsExact(c: Cache, at: Text -> World)
    requires CacheOk(c)
    ensures var d := SetActive(c, true, at);
      && (forall k :: k in d.shelf.entries <==>
            && k in c.shelf.entries
            && SameMetadata(at(k), k, c.shelf.entries[k].id) && SamePath(at(k), k, c.shelf.entries[k].canonical))
      && (forall k :: k in d.shelf.entries ==> d.shelf.entries[k] == c.shelf.entries[k])
      && (forall x, y | x in d.shelf.entries && y in d.shelf.entries ::
            Before(d.shelf.lru, x, y) <==> Before(c.shelf.lru, x, y))
      && d.active && d.query == c.query + 1 && d.tally == c.tally && d.tracker == c.tracker
  {
    var gone := Stale(c.shelf.entries, at);
    var d := SetActive(c, true, at);
    forall k | k in c.shelf.entries
      ensures k in gone <==>
        !(SameMetadata(at(k), k, c.shelf.entries[k].id) && SamePath(at(k), k, c.shelf.entries[k].canonical))
    {
      MetadataIs(at(k), k, c.shelf.entries[k].id);
      PathIs(at(k), k, c.shelf.entries[k].canonical);
    }
    forall x, y | x in d.shelf.entries && y in d.shelf.entries
      ensures Before(d.shelf.lru, x, y) <==> Before(c.shelf.lru, x, y)
    {
      KeepKeepsOrder(c.shelf.lru, gone, x, y);
    }
  }

  /** A query that may not use it leaves it alone. */
  lemma InactiveKeepsAll(c: Cache, at: Text -> World)
    ensures SetActive(c, false, at) == c.(active := false, query := c.query + 1, history := History(0, 0, 0))
  {
  }

  // ---- What is served

  /** The call finds a record of the file, as the file is. */
  ghost predicate Serves(c: Cache, path: Text, m: Moments) {
    && c.active && path != [] && path in c.shelf.entries && c.shelf.entries[path].id.size <= c.maxFileBytes
    && SameMetadata(m.stat, path, c.shelf.entries[path].id) && SamePath(m.path, path, c.shelf.entries[path].canonical)
  }

  lemma ServesIs(c: Cache, path: Text, m: Moments)
    ensures Serves(c, path, m) <==> Hits(c, path, m)
  {
    if path in c.shelf.entries {
      MetadataIs(m.stat, path, c.shelf.entries[path].id);
      PathIs(m.path, path, c.shelf.entries[path].canonical);
    }
  }

  /** Such a call counts as a hit, gives the record if it can be copied, and marks it as used; no other is a hit. */
  lemma ServedIff(c: Cache, path: Text, hash: nat, m: Moments, eng: Engine)
    requires CacheOk(c)
    ensures var (d, r) := Get(c, path, hash, m, eng);
      if Serves(c, path, m) then
        && d.tally == c.tally.(hits := c.tally.hits + 1) && d.tracker == c.tracker
        && r == (if eng.copied then Some(c.shelf.entries[path].record) else None)
        && d.shelf.entries == c.shelf.entries[path := c.shelf.entries[path].(query := c.query)]
        && d.shelf.lru != [] && d.shelf.lru[0] == path
      else d.tally.hits == c.tally.hits
  {
    ServesIs(c, path, m);
    if Serves(c, path, m) {
      HitGives(c, path, hash, m, eng);
    } else {
      GetInParts(c, path, hash, m, eng);
      if AtMiss(c, path, m).Some? {
        MissHitsNothing(AtMiss(c, path, m).value, path, StatOf(m.stat, path).value, hash, m, eng);
      }
    }
  }

  lemma MissHitsNothing(c: Cache, path: Text, id: FileId, hash: nat, m: Moments, eng: Engine)
    requires CacheOk(c) && path !in c.shelf.entries
    ensures Miss(c, path, id, hash, m, eng).0.tally.hits == c.tally.hits
  {
    MarkSays(c, path, id, hash, m, eng);
    var (i, t) := Slot(c.tracker, TagOf(hash));
    AdmitHitsNothing(c.(tracker := t), path, id, i, m, eng);
  }

  lemma AdmitHitsNothing(c: Cache, path: Text, id: FileId, i: nat, m: Moments, eng: Engine)
    requires RecordsOk(c) && path !in c.shelf.entries && i < |c.tracker.seen|
    ensures Admit(c, path, id, i, m, eng).0.tally.hits == c.tally.hits
  {
    EvictIs(Tried(c));
  }

  /** A record whose file stays as it is through the start of a query is served by the query's next call for it. */
  lemma UnchangedIsServed(c: Cache, at: Text -> World, end: World, k: Text, hash: nat, m: Moments, eng: Engine)
    requires CacheOk(c) && k != [] && k in c.shelf.entries && c.shelf.entries[k].id.size <= c.maxFileBytes
    requires SameMetadata(at(k), k, c.shelf.entries[k].id) && SamePath(at(k), k, c.shelf.entries[k].canonical)
    requires SameMetadata(m.stat, k, c.shelf.entries[k].id) && SamePath(m.path, k, c.shelf.entries[k].canonical)
    ensures var d := AfterCalls(c, [DoSetActive(true, at, end)]);
      && CacheOk(d) && k in d.shelf.entries && d.shelf.entries[k] == c.shelf.entries[k]
      && Get(d, k, hash, m, eng).0.tally.hits == c.tally.hits + 1
      && Get(d, k, hash, m, eng).1 == if eng.copied then Some(c.shelf.entries[k].record) else None
  {
    var sweep := DoSetActive(true, at, end);
    assert [sweep][..0] == [];
    assert AfterCalls(c, [sweep]) == Call1(AfterCalls(c, []), sweep);
    var d := SetActive(c, true, at);
    SweepIsExact(c, at);
    SetActiveKeepsCache(c, true, at);
    ServedIff(d, k, hash, m, eng);
  }

  // ---- What is kept

  /** The first mark of the tag in its set of eight is the tag itself, and not tag ^ 1. */
  ghost predicate WasNoted(seen: seq<nat>, tag: nat)
    requires |seen| == 4096
  {
    exists j :: tag % 512 * 8 <= j < tag % 512 * 8 + 8 && IsFirstOf(seen, tag, j)
  }

  ghost predicate IsFirstOf(seen: seq<nat>, tag: nat, j: nat)
    requires |seen| == 4096
  {
    && j < 4096 && seen[j] == tag
    && forall i :: tag % 512 * 8 <= i < j ==> seen[i] != tag && seen[i] / 2 != tag / 2
  }

  lemma MatchesPair(v: nat, tag: nat)
    ensures Matches(v, tag) <==> v / 2 == tag / 2
  {
  }

  /** Where the first mark is, in the whole table. */
  lemma FirstMark(t: Tracker, tag: nat, f: nat)
    requires |t.seen| == SLOTS && f == FirstMatch(Ways(t, tag), tag)
    ensures forall i :: Base(tag) <= i < Base(tag) + f ==> t.seen[i] / 2 != tag / 2
    ensures f < WAYS ==> t.seen[Base(tag) + f] / 2 == tag / 2 && Mark(t, tag) == t.seen[Base(tag) + f]
    ensures f == WAYS ==> Mark(t, tag) / 2 != tag / 2
  {
    var base, ways := Base(tag), Ways(t, tag);
    forall i | base <= i < base + f
      ensures t.seen[i] / 2 != tag / 2
    {
      assert ways[i - base] == t.seen[i];
      MatchesPair(t.seen[i], tag);
    }
    if f < WAYS {
      assert ways[f] == t.seen[base + f];
      MatchesPair(t.seen[base + f], tag);
    } else {
      var j := Slot(t, tag).0;
      assert ways[j - base] == t.seen[j];
      MatchesPair(t.seen[j], tag);
    }
  }

  lemma NotedIs(t: Tracker, tag: nat)
    requires |t.seen| == SLOTS
    ensures WasNoted(t.seen, tag) <==> Mark(t, tag) == tag
  {
    var f := FirstMatch(Ways(t, tag), tag);
    FirstMark(t, tag, f);
    if j :| tag % 512 * 8 <= j < tag % 512 * 8 + 8 && IsFirstOf(t.seen, tag, j) {
      assert Base(tag) + f == j;
    }
    if Mark(t, tag) == tag { assert IsFirstOf(t.seen, tag, Base(tag) + f); }
  }

  /** There is room for one more, or a record that the query has not used makes room. */
  ghost predicate HasRoom(c: Cache, path: Text) {
    || |c.shelf.entries - {path}| < c.maxFiles
    || exists k :: k in c.shelf.entries && k != path && c.shelf.entries[k].query != c.query
  }

  lemma LastIsNoNewer(c: Cache, k: Text)
    requires CacheOk(c) && k in c.shelf.entries && c.shelf.entries[k].query != c.query
    ensures HasColdest(c.shelf) && c.shelf.entries[c.shelf.lru[|c.shelf.lru| - 1]].query != c.query
  {
    LastListed(c.shelf);
    var i :| 0 <= i < |c.shelf.lru| && c.shelf.lru[i] == k;
    if i < |c.shelf.lru| - 1 { UsedStandInFront(c, i, |c.shelf.lru| - 1); }
  }

  lemma RoomIs(c: Cache, path: Text)
    requires CacheOk(c) && path !in c.shelf.entries
    ensures HasRoom(c, path) <==> !FullOfUsed(c)
  {
    assert c.shelf.entries - {path} == c.shelf.entries;
    LastListed(c.shelf);
    if k :| k in c.shelf.entries && k != path && c.shelf.entries[k].query != c.query { LastIsNoNewer(c, k); }
  }

  /** The file was noted, is worth a try, and what was read of it can be kept. */
  ghost predicate Admits(c: Cache, path: Text, id: FileId, hash: nat, m: Moments, eng: Engine)
    requires |c.tracker.seen| == 4096
  {
    && c.active && path != [] && id.size <= c.maxFileBytes && !Serves(c, path, m)
    && WasNoted(c.tracker.seen, if hash == 0 then 1 else hash) && HasRoom(c, path)
    && eng.clock && m.clock.now - (id.ctimeSec * 1_000_000_000 + id.ctimeNsec) >= 20_000_000
    && path in m.path1.targets
    && eng.read && !eng.error && eng.bytes <= 128 * (if id.size > 1024 then id.size else 1024)
    && SameMetadata(m.stat2, path, id) && SamePath(m.path2, path, m.path1.targets[path].canonical)
  }

  ghost function NewRecord(c: Cache, path: Text, id: FileId, m: Moments, eng: Engine): Entry
    requires CanonicalOf(m.path1, path).Some?
  {
    Entry(CanonicalOf(m.path1, path).value, id, Record(path, ContentAt(m.read, path)), eng.bytes, c.query)
  }

  lemma MissKeepsIff(c: Cache, path: Text, id: FileId, hash: nat, m: Moments, eng: Engine)
    requires CacheOk(c) && path !in c.shelf.entries
    ensures var d := Miss(c, path, id, hash, m, eng).0;
      var kept := Mark(c.tracker, TagOf(hash)) == TagOf(hash) && Admissible(c, path, id, m, eng) && eng.read &&
                  Keepable(path, id, CanonicalOf(m.path1, path).value, m, eng);
      && d.tally.admissions == c.tally.admissions + (if kept then 1 else 0)
      && (kept ==> path in d.shelf.entries && d.shelf.entries[path] == NewRecord(c, path, id, m, eng))
      && (!kept ==> d.shelf == c.shelf)
  {
    MarkSays(c, path, id, hash, m, eng);
    var (i, t) := Slot(c.tracker, TagOf(hash));
    AdmitKeepsIff(c.(tracker := t), path, id, i, m, eng);
  }

  lemma AdmitKeepsIff(c: Cache, path: Text, id: FileId, i: nat, m: Moments, eng: Engine)
    requires RecordsOk(c) && path !in c.shelf.entries && i < |c.tracker.seen|
    ensures var d := Admit(c, path, id, i, m, eng).0;
      var kept := Admissible(c, path, id, m, eng) && eng.read &&
                  Keepable(path, id, CanonicalOf(m.path1, path).value, m, eng);
      && d.tally.admissions == c.tally.admissions + (if kept then 1 else 0)
      && (kept ==> path in d.shelf.entries && d.shelf.entries[path] == NewRecord(c, path, id, m, eng))
      && (!kept ==> d.shelf == c.shelf)
  {
    EvictIs(Tried(c));
  }

  lemma AtMissIs(c: Cache, path: Text, m: Moments)
    requires AtMiss(c, path, m).Some?
    ensures var d := AtMiss(c, path, m).value;
      && d.tracker == c.tracker && d.tally.admissions == c.tally.admissions && d.query == c.query
      && d.maxFiles == c.maxFiles && d.shelf.entries == c.shelf.entries - {path}
  {
    if path !in c.shelf.entries { assert c.shelf.entries - {path} == c.shelf.entries; }
  }

  lemma SameRoom(c: Cache, d: Cache, path: Text)
    requires d.shelf.entries == c.shelf.entries - {path} && d.maxFiles == c.maxFiles && d.query == c.query
    ensures HasRoom(c, path) <==> HasRoom(d, path)
  {
    assert d.shelf.entries - {path} == d.shelf.entries;
    if k :| k in c.shelf.entries && k != path && c.shelf.entries[k].query != c.query { assert k in d.shelf.entries; }
    if k :| k in d.shelf.entries && k != path && d.shelf.entries[k].query != d.query { assert k in c.shelf.entries; }
  }

  /** The room for another is what it is without a changed record of the path. */
  lemma RoomAtMiss(c: Cache, path: Text, m: Moments)
    requires CacheOk(c) && AtMiss(c, path, m).Some?
    ensures var d := AtMiss(c, path, m).value;
      CacheOk(d) && path !in d.shelf.entries && (HasRoom(c, path) <==> !FullOfUsed(d))
  {
    AtMissIsOk(c, path, m);
    AtMissIs(c, path, m);
    RoomIs(AtMiss(c, path, m).value, path);
    SameRoom(c, AtMiss(c, path, m).value, path);
  }

  lemma GuardsAre(c: Cache, path: Text, id: FileId, m: Moments, eng: Engine)
    requires SameMetadata(m.stat, path, id)
    ensures Admissible(c, path, id, m, eng) && eng.read &&
            Keepable(path, id, CanonicalOf(m.path1, path).value, m, eng) <==>
      && !FullOfUsed(c) && eng.clock
      && m.clock.now - (id.ctimeSec * 1_000_000_000 + id.ctimeNsec) >= 20_000_000 && path in m.path1.targets
      && eng.read && !eng.error && eng.bytes <= 128 * (if id.size > 1024 then id.size else 1024)
      && SameMetadata(m.stat2, path, id) && SamePath(m.path2, path, m.path1.targets[path].canonical)
  {
    MetadataIs(m.stat2, path, id);
    JustNowIsByAge(m.clock.now, id);
    if path in m.path1.targets { PathIs(m.path2, path, m.path1.targets[path].canonical); }
  }

  /** A call keeps a record of the file exactly then, made of what the path led to at the read. */
  lemma KeptIff(c: Cache, path: Text, id: FileId, hash: nat, m: Moments, eng: Engine)
    requires CacheOk(c) && SameMetadata(m.stat, path, id)
    ensures var d := Get(c, path, hash, m, eng).0;
      && d.tally.admissions == c.tally.admissions + (if Admits(c, path, id, hash, m, eng) then 1 else 0)
      && (Admits(c, path, id, hash, m, eng) ==>
            && path in d.shelf.entries
            && var e := d.shelf.entries[path];
            && e.canonical == m.path1.targets[path].canonical
            && e.id == id && e.bytes == eng.bytes && e.query == c.query
            && e.record == Record(path, ContentAt(m.read, path)))
  {
    MetadataIs(m.stat, path, id);
    ServesIs(c, path, m);
    GetInParts(c, path, hash, m, eng);
    ServedIff(c, path, hash, m, eng);
    NotedIs(c.tracker, TagOf(hash));
    if AtMiss(c, path, m).Some? {
      var at := AtMiss(c, path, m).value;
      AtMissIs(c, path, m);
      RoomAtMiss(c, path, m);
      GuardsAre(at, path, id, m, eng);
      MissKeepsIff(at, path, id, hash, m, eng);
    }
  }

  /** No file, or one that is too large, or no use of the cache: nothing is kept, and nothing given. */
  lemma OthersAreNotKept(c: Cache, path: Text, hash: nat, m: Moments, eng: Engine)
    requires CacheOk(c)
    requires !c.active || path == [] || path !in m.stat.targets || m.stat.targets[path].node !in m.stat.inodes ||
             |m.stat.inodes[m.stat.targets[path].node].content| > c.maxFileBytes
    ensures var (d, r) := Get(c, path, hash, m, eng); d == c.(tally := d.tally) && r.None?
  {
  }

  // ---- The tracker's table

  /** Two hashes have one tag exactly if they are one hash, or 0 and 1. */
  lemma TagsAre(a: nat, b: nat)
    ensures TagOf(a) == TagOf(b) <==> a == b || (a < 2 && b < 2)
  {
  }

  /** Each of the 4096 slots is of the eight of one of 512 sets, and each set is that of some tags. */
  lemma EverySlotIsUsed(i: nat, t: Tracker)
    requires i < 4096 && |t.seen| == SLOTS
    ensures i / 8 < 512 && Base(i / 8) == i / 8 * 8 <= i < Base(i / 8) + 8 && |t.seen| == 4096
  {
  }
}
