/** What holds of the document cache in every run. */
module CacheTheorems {
  import opened Bytes
  import opened FileWorld
  import opened CacheTracker
  import opened CacheState

  // ---- The order of the records

  /**
    * How many documents the current query has admitted: those in the cache that it has used, and those it
    * lost again because a file changed or all was cleared, but not those it found there. That is more than
    * maxFiles exactly if it lost more than it found and still has room for.
    */
  lemma AdmissionsAre(c: Cache)
    requires CacheOk(c)
    ensures c.history.admitted == |UsedNow(c.shelf, c.query)| + c.history.dropped - c.history.found
    ensures |UsedNow(c.shelf, c.query)| <= c.maxFiles
    ensures c.history.admitted <= c.maxFiles <==>
      c.history.dropped <= c.history.found + (c.maxFiles - |UsedNow(c.shelf, c.query)|)
  {
    Fewer(UsedNow(c.shelf, c.query), c.shelf.entries.Keys);
    assert |c.shelf.entries.Keys| == |c.shelf.entries|;
  }

  /** What the current query has used stands at the front of the list. */
  lemma UsedStandInFront(c: Cache, i: nat, j: nat)
    requires CacheOk(c) && i < j < |c.shelf.lru|
    ensures c.shelf.lru[i] in c.shelf.entries && c.shelf.lru[j] in c.shelf.entries
    ensures c.shelf.entries[c.shelf.lru[j]].query == c.query ==> c.shelf.entries[c.shelf.lru[i]].query == c.query
  {
    RankedAt(c.shelf.lru, c.shelf.entries, i, j);
  }

  // ---- The cache agrees with the files

  ghost predicate InOrder(m: Moments) {
    && Evolves(m.stat, m.path) && Evolves(m.path, m.clock) && Evolves(m.clock, m.path1)
    && Evolves(m.path1, m.read) && Evolves(m.read, m.stat2) && Evolves(m.stat2, m.path2)
  }

  /** The path leads to the same file when it is read as when it is looked at. */
  ghost predicate SameFile(m: Moments, path: Text) {
    path in m.stat.targets && path in m.read.targets && m.stat.targets[path].node == m.read.targets[path].node
  }

  /** It leads elsewhere at the read, but to a file with the very bytes that the one looked at has then. */
  ghost predicate SameBytes(m: Moments, path: Text) {
    && path in m.stat.targets && path in m.read.targets
    && m.stat.targets[path].node in m.read.inodes && m.read.targets[path].node in m.read.inodes
    && m.read.inodes[m.read.targets[path].node].content == m.read.inodes[m.stat.targets[path].node].content
  }

  /**
    * The file the record was read from either still has the content it was read with, or shows by
    * its metadata that it changed; and a change now could not leave the metadata as it is.
    */
  ghost predicate EntryFresh(e: Entry, w: World) {
    var n := (e.id.dev, e.id.ino);
    && ChangeTime(e.id) + MIN_CHANGE_AGE <= w.now
    && (n in w.inodes && IdOf(n, w.inodes[n]) == e.id ==> e.record.content == Some(w.inodes[n].content))
  }

  ghost predicate Fresh(s: Shelf, w: World) {
    forall k :: k in s.entries ==> EntryFresh(s.entries[k], w)
  }

  lemma EntryStaysFresh(e: Entry, w: World, v: World)
    requires EntryFresh(e, w) && Evolves(w, v)
    ensures EntryFresh(e, v)
  {
    var n := (e.id.dev, e.id.ino);
    if n in v.inodes && IdOf(n, v.inodes[n]) == e.id {
      ChangeTimeOfInode(n, v.inodes[n]);
    }
  }

  lemma StaysFresh(s: Shelf, w: World, v: World)
    requires Fresh(s, w) && Evolves(w, v)
    ensures Fresh(s, v)
  {
    forall k | k in s.entries
      ensures EntryFresh(s.entries[k], v)
    {
      EntryStaysFresh(s.entries[k], w, v);
    }
  }

  /** The file is not repointed in the middle of an admission that finds its metadata equal, or to the same bytes. */
  ghost predicate Steady(m: Moments, path: Text) {
    StatOf(m.stat, path).Some? && StatOf(m.stat2, path) == StatOf(m.stat, path) ==>
      SameFile(m, path) || SameBytes(m, path)
  }

  /** With the metadata equal and old at the clock's reading, the file looked at is one and the same from there on. */
  lemma AdmittedIsUntouched(e: Entry, path: Text, id: FileId, m: Moments)
    requires InOrder(m) && StatOf(m.stat, path) == Some(id) && AdmittedUnder(e, path, id, m)
    ensures var n := (id.dev, id.ino);
      && n == m.stat.targets[path].node == m.stat2.targets[path].node
      && n in m.read.inodes && n in m.stat2.inodes && m.read.inodes[n] == m.stat2.inodes[n]
      && IdOf(n, m.stat2.inodes[n]) == id && ChangeTime(id) + MIN_CHANGE_AGE <= m.stat2.now
  {
    var n := m.stat2.targets[path].node;
    ChangeTimeOfInode(n, m.stat2.inodes[n]);
    JustNowIsByAge(m.clock.now, id);
    EvolvesTransitive(m.clock, m.path1, m.read);
    Untouched(m.clock, m.read, m.stat2, n);
  }

  /**
    * What an admission keeps, with whatever writes between its two stats, is right exactly if the path
    * led to the file itself at the read, or to one with the same bytes.
    */
  lemma AdmittedIsFreshIff(e: Entry, path: Text, id: FileId, m: Moments)
    requires InOrder(m) && StatOf(m.stat, path) == Some(id) && AdmittedUnder(e, path, id, m)
    ensures EntryFresh(e, m.stat2) <==> SameFile(m, path) || SameBytes(m, path)
  {
    AdmittedIsUntouched(e, path, id, m);
  }

  lemma GetKeepsFresh(c: Cache, path: Text, hash: nat, m: Moments, eng: Engine)
    requires CacheOk(c) && Fresh(c.shelf, m.stat) && InOrder(m) && Steady(m, path)
    ensures Fresh(Get(c, path, hash, m, eng).0.shelf, m.path2)
  {
    EvolvesTransitive(m.stat, m.path, m.clock);
    EvolvesTransitive(m.stat, m.clock, m.path1);
    EvolvesTransitive(m.stat, m.path1, m.read);
    EvolvesTransitive(m.stat, m.read, m.stat2);
    EvolvesTransitive(m.stat, m.stat2, m.path2);
    StaysFresh(c.shelf, m.stat, m.path2);
    if StatOf(m.stat, path).Some? {
      FreshFromBoth(c.shelf, Get(c, path, hash, m, eng).0.shelf, path, StatOf(m.stat, path).value, m);
    }
  }

  lemma FreshFromBoth(s: Shelf, t: Shelf, path: Text, id: FileId, m: Moments)
    requires InOrder(m) && StatOf(m.stat, path) == Some(id) && Steady(m, path)
    requires Fresh(s, m.path2) && ComeFrom(s, t, path, id, m)
    ensures Fresh(t, m.path2)
  {
    forall k | k in t.entries
      ensures EntryFresh(t.entries[k], m.path2)
    {
      if !(k in s.entries && t.entries[k].record == s.entries[k].record && t.entries[k].id == s.entries[k].id) {
        AdmittedIsFreshIff(t.entries[k], path, id, m);
        EntryStaysFresh(t.entries[k], m.stat2, m.path2);
      }
    }
  }

  /** Looked up while the cache is in use and the file is not too large: only then can there be a hit. */
  ghost predicate Hits(c: Cache, path: Text, m: Moments) {
    c.active && path != [] && IsHit(c, path, m) && c.shelf.entries[path].id.size <= c.maxFileBytes
  }

  lemma HitGives(c: Cache, path: Text, hash: nat, m: Moments, eng: Engine)
    requires CacheOk(c) && Hits(c, path, m)
    ensures Get(c, path, hash, m, eng) == (Hit(c, path), Given(eng, c.shelf.entries[path].record))
  {
  }

  /** What a query gets by a hit is what reading the file at that moment would build. */
  lemma HitIsWhatReadingGives(c: Cache, path: Text, hash: nat, m: Moments, eng: Engine)
    requires CacheOk(c) && Fresh(c.shelf, m.stat) && Hits(c, path, m)
    ensures RightResult(Get(c, path, hash, m, eng).1, path, m)
  {
    HitGives(c, path, hash, m, eng);
    assert EntryFresh(c.shelf.entries[path], m.stat);
  }

  /** The result of a get, if it is one, holds what the file holds at its stat. */
  ghost predicate RightResult(r: Option<Record>, path: Text, m: Moments) {
    r.Some? ==> ContentAt(m.stat, path).Some? && r.value.content == ContentAt(m.stat, path)
  }

  // ---- Runs

  datatype Call =
    | DoGet(path: Text, hash: nat, m: Moments, eng: Engine)
    | DoSetActive(active: bool, at: Text -> World, end: World)
    | DoClear

  ghost function Call1(c: Cache, call: Call): (d: Cache)
    requires CacheOk(c)
    ensures CacheOk(d)
  {
    match call
    case DoGet(path, hash, m, eng) => Get(c, path, hash, m, eng).0
    case DoSetActive(active, at, _) =>
      SetActiveKeepsCache(c, active, at);
      SetActive(c, active, at)
    case DoClear => Clear(c)
  }

  /** The calls go on in a world that evolves. */
  ghost predicate Follows(w: World, call: Call) {
    match call
    case DoGet(path, _, m, _) => Evolves(w, m.stat) && InOrder(m)
    case DoSetActive(_, _, end) => Evolves(w, end)
    case DoClear => true
  }

  ghost function Later(w: World, call: Call): World {
    match call
    case DoGet(_, _, m, _) => m.path2
    case DoSetActive(_, _, end) => end
    case DoClear => w
  }

  ghost function WorldAfter(w: World, calls: seq<Call>): World {
    if calls == [] then w else Later(WorldAfter(w, calls[..|calls| - 1]), calls[|calls| - 1])
  }

  ghost predicate InSequence(w: World, calls: seq<Call>) {
    forall i :: 0 <= i < |calls| ==> Follows(WorldAfter(w, calls[..i]), calls[i])
  }

  /** What an admission among the calls reads is the file it looked at, or has its bytes. */
  ghost predicate ReadsTheFile(call: Call) {
    call.DoGet? ==> Steady(call.m, call.path)
  }

  ghost predicate AllReadTheFile(calls: seq<Call>) {
    forall i :: 0 <= i < |calls| ==> ReadsTheFile(calls[i])
  }

  /** Each hit among the calls gives the query what the file holds at its stat. */
  ghost predicate HitIsRight(c: Cache, call: Call)
    requires CacheOk(c)
  {
    call.DoGet? && Hits(c, call.path, call.m) ==>
      RightResult(Get(c, call.path, call.hash, call.m, call.eng).1, call.path, call.m)
  }

  ghost function AfterCalls(c: Cache, calls: seq<Call>): (d: Cache)
    requires CacheOk(c)
    ensures CacheOk(d)
  {
    if calls == [] then c else Call1(AfterCalls(c, calls[..|calls| - 1]), calls[|calls| - 1])
  }

  ghost predicate HitsAreRight(c: Cache, calls: seq<Call>)
    requires CacheOk(c)
  {
    forall i :: 0 <= i < |calls| ==> HitIsRight(AfterCalls(c, calls[..i]), calls[i])
  }

  /**
    * In every run, whatever happens to the files: the list is a duplicate-free listing of the records,
    * those of the current query first; counts and tracker agree; and the query's admissions are what they are.
    */
  lemma OrderInEveryRun(maxFiles: nat, maxFileBytes: nat, calls: seq<Call>)
    requires maxFiles > 0
    ensures CacheOk(Empty(maxFiles, maxFileBytes))
    ensures var c := AfterCalls(Empty(maxFiles, maxFileBytes), calls);
      && NoDup(c.shelf.lru) && (forall k :: k in c.shelf.lru <==> k in c.shelf.entries)
      && c.shelf.bytes == RecordBytes(c.shelf.entries) && c.shelf.count == |c.shelf.entries| <= c.maxFiles
      && (forall i, j :: 0 <= i < j < |c.shelf.lru| && c.shelf.entries[c.shelf.lru[j]].query == c.query ==>
            c.shelf.entries[c.shelf.lru[i]].query == c.query)
      && c.history.admitted == |UsedNow(c.shelf, c.query)| + c.history.dropped - c.history.found
      && (c.history.admitted <= c.maxFiles <==>
            c.history.dropped <= c.history.found + (c.maxFiles - |UsedNow(c.shelf, c.query)|))
      && TrackerOk(c.tracker)
  {
    var c := AfterCalls(Empty(maxFiles, maxFileBytes), calls);
    AdmissionsAre(c);
    forall i, j | 0 <= i < j < |c.shelf.lru| && c.shelf.entries[c.shelf.lru[j]].query == c.query
      ensures c.shelf.entries[c.shelf.lru[i]].query == c.query
    {
      UsedStandInFront(c, i, j);
    }
  }

  lemma CallKeepsFresh(c: Cache, w: World, call: Call)
    requires CacheOk(c) && Fresh(c.shelf, w) && Follows(w, call) && ReadsTheFile(call)
    ensures Fresh(Call1(c, call).shelf, Later(w, call))
  {
    match call
    case DoGet(path, hash, m, eng) =>
      StaysFresh(c.shelf, w, m.stat);
      GetKeepsFresh(c, path, hash, m, eng);
    case DoSetActive(_, _, end) =>
      StaysFresh(c.shelf, w, end);
    case DoClear =>
  }

  /** The records are fresh after any number of the calls. */
  lemma {:induction false} FreshAfter(c: Cache, w: World, calls: seq<Call>, i: nat)
    requires CacheOk(c) && Fresh(c.shelf, w) && InSequence(w, calls) && AllReadTheFile(calls) && i <= |calls|
    ensures Fresh(AfterCalls(c, calls[..i]).shelf, WorldAfter(w, calls[..i]))
  {
    if i > 0 {
      FreshAfter(c, w, calls, i - 1);
      assert calls[..i][..i - 1] == calls[..i - 1];
      CallKeepsFresh(AfterCalls(c, calls[..i - 1]), WorldAfter(w, calls[..i - 1]), calls[i - 1]);
    }
  }

  lemma HitStaysRight(c: Cache, w: World, call: Call)
    requires CacheOk(c) && Fresh(c.shelf, w) && Follows(w, call)
    ensures HitIsRight(c, call)
  {
    if call.DoGet? && Hits(c, call.path, call.m) {
      StaysFresh(c.shelf, w, call.m.stat);
      HitIsWhatReadingGives(c, call.path, call.hash, call.m, call.eng);
    }
  }

  lemma HitsStayRight(c: Cache, w: World, calls: seq<Call>)
    requires CacheOk(c) && Fresh(c.shelf, w) && InSequence(w, calls) && AllReadTheFile(calls)
    ensures HitsAreRight(c, calls)
  {
    forall i | 0 <= i < |calls|
      ensures HitIsRight(AfterCalls(c, calls[..i]), calls[i])
    {
      FreshAfter(c, w, calls, i);
      HitStaysRight(AfterCalls(c, calls[..i]), WorldAfter(w, calls[..i]), calls[i]);
    }
  }

  /**
    * In every run from an empty cache whose admissions read the file they look at, or its bytes, what a
    * query gets by a hit is what reading the file at that moment would give.
    */
  lemma CacheAgreesWithFiles(maxFiles: nat, maxFileBytes: nat, w: World, calls: seq<Call>)
    requires maxFiles > 0 && InSequence(w, calls) && AllReadTheFile(calls)
    ensures CacheOk(Empty(maxFiles, maxFileBytes)) && HitsAreRight(Empty(maxFiles, maxFileBytes), calls)
  {
    HitsStayRight(Empty(maxFiles, maxFileBytes), w, calls);
  }
}
