/** The document cache as a value, and what one call of it does. */
module CacheState {
  import opened Bytes
  import opened FileWorld
  import opened CacheTracker

  const MAX_EXPANSION := 128

  /** What dir:open makes of a file: a function of its path and what was read. */
  datatype Record = Record(path: Text, content: Option<Text>)

  datatype Entry = Entry(canonical: Text, id: FileId, record: Record, bytes: nat, query: nat)

  /** The records, their list (most recently used first), and the counts of both. */
  datatype Shelf = Shelf(entries: map<Text, Entry>, lru: seq<Text>, bytes: int, count: int)

  datatype Tally = Tally(hits: int, misses: int, admissions: int, refused: int, evictions: int)

  /** What the current query has admitted, what it found there and used, and what it lost of both. */
  datatype History = History(admitted: int, found: int, dropped: int)

  datatype Cache = Cache(
    maxFiles: nat, maxFileBytes: nat, shelf: Shelf, tracker: Tracker, query: nat, active: bool,
    tally: Tally, history: History)

  /** The world at each of the system calls a get() makes, in the order it makes them. */
  datatype Moments = Moments(
    stat: World, path: World, clock: World, path1: World, read: World, stat2: World, path2: World)

  /** What the engine and the clock do: each can fail, and the record has some size. */
  datatype Engine = Engine(clock: bool, read: bool, error: bool, bytes: nat, copied: bool)

  // ---- The shelf

  ghost function RecordBytes(es: map<Text, Entry>): int {
    if es == map[] then 0 else
      var k :| k in es;
      RecordBytes(es - {k}) + es[k].bytes
  }

  /** Each one on the list was used by no later query than those before it. */
  ghost predicate Ranked(q: seq<Text>, es: map<Text, Entry>) {
    q == [] || (
      && q[0] in es
      && (forall k :: k in q[1..] ==> k in es && es[k].query <= es[q[0]].query)
      && Ranked(q[1..], es))
  }

  /** The list is a duplicate-free listing of the map's keys, latest query first. */
  ghost predicate ListOk(s: Shelf) {
    NoDup(s.lru) && (forall k :: k in s.lru <==> k in s.entries) && Ranked(s.lru, s.entries)
  }

  ghost predicate ShelfOk(s: Shelf) {
    ListOk(s) && s.bytes == RecordBytes(s.entries) && s.count == |s.entries|
  }

  /** erase(). */
  function Drop(s: Shelf, k: Text): Shelf
    requires k in s.entries
  {
    Shelf(s.entries - {k}, Without(s.lru, k), s.bytes - s.entries[k].bytes, |s.entries - {k}|)
  }

  /** A hit: the entry is the current query's now, and goes to the front. */
  function Use(s: Shelf, k: Text, query: nat): Shelf
    requires k in s.entries
  {
    s.(entries := s.entries[k := s.entries[k].(query := query)], lru := [k] + Without(s.lru, k))
  }

  function Insert(s: Shelf, k: Text, e: Entry): Shelf {
    Shelf(s.entries[k := e], [k] + s.lru, s.bytes + e.bytes, |s.entries[k := e]|)
  }

  lemma {:induction false} TakeRecord(es: map<Text, Entry>, k: Text)
    requires k in es
    ensures RecordBytes(es) == RecordBytes(es - {k}) + es[k].bytes
    decreases |es|
  {
    var j :| j in es && RecordBytes(es) == RecordBytes(es - {j}) + es[j].bytes;
    if j != k {
      assert es - {j} - {k} == es - {k} - {j};
      TakeRecord(es - {j}, k);
      TakeRecord(es - {k}, j);
    }
  }

  lemma PutRecord(es: map<Text, Entry>, k: Text, e: Entry)
    ensures k !in es ==> RecordBytes(es[k := e]) == RecordBytes(es) + e.bytes
    ensures k in es && es[k].bytes == e.bytes ==> RecordBytes(es[k := e]) == RecordBytes(es)
  {
    TakeRecord(es[k := e], k);
    assert es[k := e] - {k} == es - {k};
    if k in es {
      TakeRecord(es, k);
    } else {
      assert es - {k} == es;
    }
  }

  /** Taking one out leaves the others in their order, whatever becomes of its entry. */
  lemma {:induction false} RankedWithout(q: seq<Text>, es: map<Text, Entry>, k: Text, fs: map<Text, Entry>)
    requires NoDup(q) && Ranked(q, es)
    requires forall j :: j in es && j != k ==> j in fs && fs[j] == es[j]
    ensures Ranked(Without(q, k), fs)
  {
    if q != [] {
      assert q == [q[0]] + q[1..] && q[0] !in q[1..];
      RankedWithout(q[1..], es, k, fs);
      WithoutIsExact(q[1..], k);
      if q[0] != k { RankedCons(Without(q[1..], k), fs, q[0]); }
    }
  }

  lemma RankedCons(q: seq<Text>, es: map<Text, Entry>, k: Text)
    requires Ranked(q, es) && k in es
    requires forall j :: j in q ==> j in es && es[j].query <= es[k].query
    ensures Ranked([k] + q, es)
  {
    assert ([k] + q)[1..] == q;
  }

  lemma {:induction false} RankedAt(q: seq<Text>, es: map<Text, Entry>, i: nat, j: nat)
    requires Ranked(q, es) && i <= j < |q|
    ensures q[i] in es && q[j] in es && es[q[i]].query >= es[q[j]].query
  {
    if i > 0 {
      RankedAt(q[1..], es, i - 1, j - 1);
    } else if j > 0 {
      assert q[j] in q[1..];
    }
  }

  lemma DropKeepsList(s: Shelf, k: Text)
    requires ListOk(s) && k in s.entries
    ensures ListOk(Drop(s, k))
  {
    WithoutIsExact(s.lru, k);
    RankedWithout(s.lru, s.entries, k, s.entries - {k});
  }

  lemma DropKeepsShelf(s: Shelf, k: Text)
    requires ShelfOk(s) && k in s.entries
    ensures ShelfOk(Drop(s, k)) && Drop(s, k).count == s.count - 1
  {
    TakeRecord(s.entries, k);
    DropKeepsList(s, k);
  }

  lemma UseKeepsList(s: Shelf, k: Text, query: nat)
    requires ListOk(s) && k in s.entries
    requires forall j :: j in s.entries ==> s.entries[j].query <= query
    ensures ListOk(Use(s, k, query))
  {
    var es := s.entries[k := s.entries[k].(query := query)];
    var rest := Without(s.lru, k);
    WithoutIsExact(s.lru, k);
    RankedWithout(s.lru, s.entries, k, es);
    RankedCons(rest, es, k);
    assert NoDup([k] + rest);
  }

  lemma UseKeepsShelf(s: Shelf, k: Text, query: nat)
    requires ShelfOk(s) && k in s.entries
    requires forall j :: j in s.entries ==> s.entries[j].query <= query
    ensures ShelfOk(Use(s, k, query))
  {
    PutRecord(s.entries, k, s.entries[k].(query := query));
    assert s.entries[k := s.entries[k].(query := query)].Keys == s.entries.Keys;
    UseKeepsList(s, k, query);
  }

  lemma {:induction false} RankedFrame(q: seq<Text>, es: map<Text, Entry>, fs: map<Text, Entry>)
    requires Ranked(q, es) && forall j :: j in q ==> j in fs && j in es && fs[j] == es[j]
    ensures Ranked(q, fs)
  {
    if q != [] { RankedFrame(q[1..], es, fs); }
  }

  lemma InsertKeepsList(s: Shelf, k: Text, e: Entry)
    requires ListOk(s) && k !in s.entries
    requires forall j :: j in s.entries ==> s.entries[j].query <= e.query
    ensures ListOk(Insert(s, k, e))
  {
    var es := s.entries[k := e];
    RankedFrame(s.lru, s.entries, es);
    RankedCons(s.lru, es, k);
    assert NoDup([k] + s.lru);
  }

  lemma InsertKeepsShelf(s: Shelf, k: Text, e: Entry)
    requires ShelfOk(s) && k !in s.entries
    requires forall j :: j in s.entries ==> s.entries[j].query <= e.query
    ensures ShelfOk(Insert(s, k, e)) && Insert(s, k, e).count == s.count + 1
  {
    PutRecord(s.entries, k, e);
    OneMore(s.entries, k, e);
    InsertKeepsList(s, k, e);
  }

  lemma OneMore(es: map<Text, Entry>, k: Text, e: Entry)
    requires k !in es
    ensures |es[k := e]| == |es| + 1
  {
    assert es[k := e].Keys == es.Keys + {k} && |es[k := e]| == |es[k := e].Keys|;
  }

  // ---- The cache

  /** The entries the current query has used. */
  ghost function UsedNow(s: Shelf, query: nat): set<Text> {
    set k | k in s.entries && s.entries[k].query == query
  }

  ghost predicate CacheOk(c: Cache) {
    RecordsOk(c) && TrackerOk(c.tracker)
  }

  ghost predicate RecordsOk(c: Cache) {
    && c.maxFiles > 0 && ShelfOk(c.shelf) && c.shelf.count <= c.maxFiles
    && (forall k :: k in c.shelf.entries ==> c.shelf.entries[k].query <= c.query)
    && c.history.admitted + c.history.found == |UsedNow(c.shelf, c.query)| + c.history.dropped
  }

  /** An entry whose file changed goes: it counts as dropped if the current query had used it. */
  function DropChanged(c: Cache, k: Text): Cache
    requires k in c.shelf.entries
  {
    c.(shelf := Drop(c.shelf, k),
       history := if c.shelf.entries[k].query == c.query
                  then c.history.(dropped := c.history.dropped + 1) else c.history)
  }

  function Hit(c: Cache, k: Text): Cache
    requires k in c.shelf.entries
  {
    c.(shelf := Use(c.shelf, k, c.query), tally := c.tally.(hits := c.tally.hits + 1),
       history := if c.shelf.entries[k].query == c.query then c.history
                  else c.history.(found := c.history.found + 1))
  }

  function Missed(c: Cache): Cache { c.(tally := c.tally.(misses := c.tally.misses + 1)) }

  function Given(eng: Engine, r: Record): Option<Record> { if eng.copied then Some(r) else None }

  /** get(): the cache after it, and the record the query gets. `hash` is the hash of the key. */
  ghost function Get(c: Cache, path: Text, hash: nat, m: Moments, eng: Engine): (r: (Cache, Option<Record>))
    requires RecordsOk(c) && |c.tracker.seen| == SLOTS
    ensures StatOf(m.stat, path).None? ==> r == (c, None)
    ensures StatOf(m.stat, path).Some? ==> ComeFrom(c.shelf, r.0.shelf, path, StatOf(m.stat, path).value, m)
    ensures Keeps(c, r.0, {path}) && (TrackerOk(c.tracker) ==> TrackerOk(r.0.tracker))
  {
    if !c.active || path == [] then (c, None) else
      match StatOf(m.stat, path)
      case None => (c, None)
      case Some(id) =>
        if id.size > c.maxFileBytes then (Missed(c), None) else Lookup(c, path, id, hash, m, eng)
  }

  /** get() for a file that is there and small enough. */
  ghost function Lookup(c: Cache, path: Text, id: FileId, hash: nat, m: Moments, eng: Engine)
    : (r: (Cache, Option<Record>))
    requires RecordsOk(c) && |c.tracker.seen| == SLOTS
    ensures ComeFrom(c.shelf, r.0.shelf, path, id, m)
    ensures Keeps(c, r.0, {path}) && (TrackerOk(c.tracker) ==> TrackerOk(r.0.tracker))
  {
    if IsHit(c, path, m) then
      HitKeepsRecords(c, path);
      (Hit(c, path), Given(eng, c.shelf.entries[path].record))
    else if path in c.shelf.entries then
      DropChangedKeepsCache(c, path);
      UsedAfterDrop(c.shelf, path, c.query);
      Miss(Missed(DropChanged(c, path)), path, id, hash, m, eng)
    else Miss(Missed(c), path, id, hash, m, eng)
  }

  /** The record is served: the file's metadata and canonical path are the ones it was read under. */
  predicate IsHit(c: Cache, path: Text, m: Moments) {
    && path in c.shelf.entries
    && StatOf(m.stat, path) == Some(c.shelf.entries[path].id)
    && CanonicalOf(m.path, path) == Some(c.shelf.entries[path].canonical)
  }

  ghost function Miss(c: Cache, path: Text, id: FileId, hash: nat, m: Moments, eng: Engine)
    : (r: (Cache, Option<Record>))
    requires RecordsOk(c) && |c.tracker.seen| == SLOTS && path !in c.shelf.entries
    ensures Keeps(c, r.0, {}) && (TrackerOk(c.tracker) ==> TrackerOk(r.0.tracker))
    ensures ComeFrom(c.shelf, r.0.shelf, path, id, m)
  {
    var tag := TagOf(hash);
    var (i, t) := Slot(c.tracker, tag);
    WritesKeepTracker(c.tracker, tag);
    Consider(c.(tracker := t), path, id, tag, i, m, eng)
  }

  /** A file's second miss is worth a try, unless it was refused; the first one is noted. */
  ghost function Consider(c: Cache, path: Text, id: FileId, tag: nat, i: nat, m: Moments, eng: Engine)
    : (r: (Cache, Option<Record>))
    requires RecordsOk(c) && i < |c.tracker.seen| && path !in c.shelf.entries
    ensures Keeps(c, r.0, {}) && ComeFrom(c.shelf, r.0.shelf, path, id, m)
    ensures WritesOne(c.tracker, r.0.tracker, i) || r.0.tracker == c.tracker.(seen := c.tracker.seen[i := tag])
    ensures r.0.tracker != c.tracker && c.tracker.seen[i] != tag ==>
      r.0.tracker == c.tracker.(seen := c.tracker.seen[i := tag])
  {
    var seen := c.tracker.seen;
    if seen[i] == RefusedTag(tag) then (c, None)
    else if seen[i] != tag then (c.(tracker := c.tracker.(seen := seen[i := tag])), None)
    else Admit(c, path, id, i, m, eng)
  }

  /** The file is not worth a try: the cache is full of what this query has used. */
  predicate FullOfUsed(c: Cache) {
    && |c.shelf.entries| >= c.maxFiles && HasColdest(c.shelf)
    && c.shelf.entries[c.shelf.lru[|c.shelf.lru| - 1]].query == c.query
  }

  lemma LastListed(s: Shelf)
    requires ShelfOk(s)
    ensures |s.entries| > 0 ==> s.lru != [] && s.lru[|s.lru| - 1] in s.entries
  {
    if s.lru != [] {
      assert s.lru[|s.lru| - 1] in s.lru;
    } else {
      assert forall k :: k !in s.entries;
      assert s.entries == map[];
    }
  }

  /** The record is kept: no error, not too large, and the file as it was before the read. */
  ghost predicate Keepable(path: Text, id: FileId, canonical: Text, m: Moments, eng: Engine) {
    && !eng.error
    && eng.bytes <= MAX_EXPANSION * (if id.size > 1024 then id.size else 1024)
    && StatOf(m.stat2, path) == Some(id)
    && CanonicalOf(m.path2, path) == Some(canonical)
  }

  /** The guards of admit() before the read. */
  predicate Admissible(c: Cache, path: Text, id: FileId, m: Moments, eng: Engine) {
    !FullOfUsed(c) && eng.clock && !ChangedJustNow(m.clock.now, id) && CanonicalOf(m.path1, path).Some?
  }

  /** A try counts as refused until it succeeds. */
  function Tried(c: Cache): Cache { c.(tally := c.tally.(refused := c.tally.refused + 1)) }

  ghost function Admit(c: Cache, path: Text, id: FileId, i: nat, m: Moments, eng: Engine): (r: (Cache, Option<Record>))
    requires RecordsOk(c) && path !in c.shelf.entries && i < |c.tracker.seen|
    ensures Keeps(c, r.0, {}) && WritesOne(c.tracker, r.0.tracker, i)
    ensures ComeFrom(c.shelf, r.0.shelf, path, id, m)
  {
    if Admissible(c, path, id, m, eng) then Judge(Tried(c), path, id, CanonicalOf(m.path1, path).value, i, m, eng)
    else (c, None)
  }

  /** The part of admit() from the read on. */
  ghost function Judge(c: Cache, path: Text, id: FileId, canonical: Text, i: nat, m: Moments, eng: Engine)
    : (r: (Cache, Option<Record>))
    requires RecordsOk(c) && !FullOfUsed(c) && path !in c.shelf.entries && i < |c.tracker.seen|
    requires !ChangedJustNow(m.clock.now, id)
    ensures Keeps(c, r.0, {}) && WritesOne(c.tracker, r.0.tracker, i)
    ensures ComeFrom(c.shelf, r.0.shelf, path, id, m)
  {
    var record := Record(path, ContentAt(m.read, path));
    if !eng.read then (c, None)
    else if !Keepable(path, id, canonical, m, eng) then (Refuse(c, i), Some(record))
    else (Place(c, path, Entry(canonical, id, record, eng.bytes, c.query), i), Given(eng, record))
  }

  /** Room is made, and the record put in front. */
  ghost function Place(c: Cache, path: Text, e: Entry, i: nat): (d: Cache)
    requires RecordsOk(c) && !FullOfUsed(c) && path !in c.shelf.entries && i < |c.tracker.seen| && e.query == c.query
    ensures Keeps(c, d, {}) && d.tracker == c.tracker.(seen := c.tracker.seen[i := 0])
    ensures forall k :: k in d.shelf.entries ==>
      if k == path then d.shelf.entries[k] == e else k in c.shelf.entries && d.shelf.entries[k] == c.shelf.entries[k]
  {
    EvictIs(c);
    EvictKeepsUsed(c);
    StoreKeepsRecords(Evict(c), path, e, i);
    Store(Evict(c), path, e, i)
  }

  function Refuse(c: Cache, i: nat): Cache
    requires i < |c.tracker.seen|
  {
    c.(tracker := c.tracker.(seen := c.tracker.seen[i := RefusedTag(c.tracker.seen[i])]))
  }

  /** The list has a last one, and it is in the map: what the loop that makes room relies on. */
  predicate HasColdest(s: Shelf) { s.lru != [] && s.lru[|s.lru| - 1] in s.entries }

  /** The loop that makes room. */
  function Evict(c: Cache): Cache
    decreases |c.shelf.entries|
  {
    if |c.shelf.entries| < c.maxFiles || !HasColdest(c.shelf) then c else Evict(WithoutColdest(c))
  }

  lemma {:induction false} EvictIs(c: Cache)
    requires c.maxFiles > 0 && ShelfOk(c.shelf)
    ensures var d := Evict(c);
      && ShelfOk(d.shelf) && |d.shelf.entries| < c.maxFiles
      && d == c.(shelf := d.shelf, tally := c.tally.(evictions := d.tally.evictions))
      && forall k :: k in d.shelf.entries ==> k in c.shelf.entries && d.shelf.entries[k] == c.shelf.entries[k]
    decreases |c.shelf.entries|
  {
    if |c.shelf.entries| >= c.maxFiles {
      LastListed(c.shelf);
      DropKeepsShelf(c.shelf, c.shelf.lru[|c.shelf.lru| - 1]);
      EvictIs(WithoutColdest(c));
    }
  }

  function WithoutColdest(c: Cache): Cache
    requires HasColdest(c.shelf)
  {
    c.(shelf := Drop(c.shelf, c.shelf.lru[|c.shelf.lru| - 1]),
       tally := c.tally.(evictions := c.tally.evictions + 1))
  }

  lemma EvictUnfolds(c: Cache)
    requires |c.shelf.entries| >= c.maxFiles && HasColdest(c.shelf)
    ensures Evict(c) == Evict(WithoutColdest(c))
  {
  }

  lemma ColdestGoes(c: Cache)
    requires ShelfOk(c.shelf) && HasColdest(c.shelf)
    ensures ShelfOk(WithoutColdest(c).shelf) && |WithoutColdest(c).shelf.entries| < |c.shelf.entries|
  {
    DropKeepsShelf(c.shelf, c.shelf.lru[|c.shelf.lru| - 1]);
  }

  /** One round of the loop. */
  lemma EvictsOne(c: Cache)
    requires c.maxFiles > 0 && ShelfOk(c.shelf) && |c.shelf.entries| >= c.maxFiles
    ensures HasColdest(c.shelf)
    ensures ShelfOk(WithoutColdest(c).shelf) && Evict(WithoutColdest(c)) == Evict(c)
    ensures |WithoutColdest(c).shelf.entries| < |c.shelf.entries|
  {
    LastListed(c.shelf);
    EvictUnfolds(c);
    ColdestGoes(c);
  }

  function Store(c: Cache, path: Text, e: Entry, i: nat): Cache
    requires i < |c.tracker.seen|
  {
    c.(shelf := Insert(c.shelf, path, e),
       tally := c.tally.(refused := c.tally.refused - 1, admissions := c.tally.admissions + 1),
       history := c.history.(admitted := c.history.admitted + 1),
       tracker := c.tracker.(seen := c.tracker.seen[i := 0]))
  }

  // ---- What the calls keep

  lemma UsedAfterDrop(s: Shelf, k: Text, query: nat)
    requires k in s.entries
    ensures UsedNow(Drop(s, k), query) == UsedNow(s, query) - {k}
    ensures |UsedNow(Drop(s, k), query)| == |UsedNow(s, query)| - if s.entries[k].query == query then 1 else 0
  {
    assert UsedNow(Drop(s, k), query) == UsedNow(s, query) - {k};
    if s.entries[k].query != query { assert UsedNow(s, query) - {k} == UsedNow(s, query); }
  }

  lemma DropChangedKeepsCache(c: Cache, k: Text)
    requires RecordsOk(c) && k in c.shelf.entries
    ensures RecordsOk(DropChanged(c, k)) && k !in DropChanged(c, k).shelf.entries
  {
    DropKeepsShelf(c.shelf, k);
    UsedAfterDrop(c.shelf, k, c.query);
  }

  lemma {:induction false} Fewer<T>(a: set<T>, b: set<T>)
    requires a <= b
    ensures |a| <= |b|
  {
    if x :| x in a { Fewer(a - {x}, b - {x}); }
  }

  lemma UsedAfterUse(s: Shelf, k: Text, query: nat)
    requires k in s.entries
    ensures UsedNow(Use(s, k, query), query) == UsedNow(s, query) + {k}
    ensures |UsedNow(Use(s, k, query), query)| == |UsedNow(s, query)| + if s.entries[k].query == query then 0 else 1
  {
    assert UsedNow(Use(s, k, query), query) == UsedNow(s, query) + {k};
    if s.entries[k].query == query { assert UsedNow(s, query) + {k} == UsedNow(s, query); }
  }

  lemma HitKeepsRecords(c: Cache, k: Text)
    requires RecordsOk(c) && k in c.shelf.entries
    ensures RecordsOk(Hit(c, k)) && UsedNow(Hit(c, k).shelf, c.query) == UsedNow(c.shelf, c.query) + {k}
  {
    UseKeepsShelf(c.shelf, k, c.query);
    UsedAfterUse(c.shelf, k, c.query);
  }

  /** What is evicted is not of the current query's. */
  lemma EvictKeepsUsed(c: Cache)
    requires c.maxFiles > 0 && ShelfOk(c.shelf) && c.shelf.count <= c.maxFiles && !FullOfUsed(c)
    ensures UsedNow(Evict(c).shelf, c.query) == UsedNow(c.shelf, c.query)
  {
    if |c.shelf.entries| >= c.maxFiles {
      LastListed(c.shelf);
      var k := c.shelf.lru[|c.shelf.lru| - 1];
      DropKeepsShelf(c.shelf, k);
      UsedAfterDrop(c.shelf, k, c.query);
    }
  }

  lemma StoreKeepsRecords(c: Cache, path: Text, e: Entry, i: nat)
    requires c.maxFiles > 0 && ShelfOk(c.shelf) && |c.shelf.entries| < c.maxFiles
    requires path !in c.shelf.entries && e.query == c.query
    requires forall k :: k in c.shelf.entries ==> c.shelf.entries[k].query <= c.query
    requires c.history.admitted + c.history.found == |UsedNow(c.shelf, c.query)| + c.history.dropped
    requires i < |c.tracker.seen|
    ensures RecordsOk(Store(c, path, e, i))
    ensures UsedNow(Store(c, path, e, i).shelf, c.query) == UsedNow(c.shelf, c.query) + {path}
  {
    InsertKeepsShelf(c.shelf, path, e);
    UsedAfterInsert(c.shelf, path, e);
  }

  lemma UsedAfterInsert(s: Shelf, k: Text, e: Entry)
    requires k !in s.entries
    ensures UsedNow(Insert(s, k, e), e.query) == UsedNow(s, e.query) + {k}
    ensures |UsedNow(Insert(s, k, e), e.query)| == |UsedNow(s, e.query)| + 1
  {
    assert UsedNow(Insert(s, k, e), e.query) == UsedNow(s, e.query) + {k};
  }

  /** From c to d the records stay in order, and those the query has used stay, but for `but`. */
  ghost predicate Keeps(c: Cache, d: Cache, but: set<Text>) {
    RecordsOk(d) && UsedNow(c.shelf, c.query) - but <= UsedNow(d.shelf, c.query) && d.query == c.query
  }

  /** The entry was made by an admission: unchanged for a while, read, and found unchanged again. */
  ghost predicate AdmittedUnder(e: Entry, path: Text, id: FileId, m: Moments) {
    && e.id == id && StatOf(m.stat2, path) == Some(id)
    && !ChangedJustNow(m.clock.now, id)
    && e.record == Record(path, ContentAt(m.read, path))
  }

  /** Every entry was there before, with the same record, or has just been admitted. */
  ghost predicate ComeFrom(s: Shelf, t: Shelf, path: Text, id: FileId, m: Moments) {
    forall k :: k in t.entries ==>
      || (k in s.entries && t.entries[k].record == s.entries[k].record && t.entries[k].id == s.entries[k].id)
      || (k == path && AdmittedUnder(t.entries[k], path, id, m))
  }

  /** One slot at most is written, and only its refused mark or the empty mark. */
  ghost predicate WritesOne(t: Tracker, u: Tracker, i: nat)
    requires i < |t.seen|
  {
    u == t || u == t.(seen := t.seen[i := 0]) || u == t.(seen := t.seen[i := RefusedTag(t.seen[i])])
  }

  // ---- set_active() and clear()

  /** An entry that the sweep finds unchanged. */
  predicate Unchanged(k: Text, e: Entry, at: World) {
    StatOf(at, k) == Some(e.id) && CanonicalOf(at, k) == Some(e.canonical)
  }

  /** at(k) is the world when the sweep comes to k. */
  ghost function Stale(es: map<Text, Entry>, at: Text -> World): set<Text> {
    set k | k in es && !Unchanged(k, es[k], at(k))
  }

  /** A round of the sweep: k is looked at, and goes if it is stale. */
  lemma StaleRound(es: map<Text, Entry>, at: Text -> World, left: set<Text>, k: Text)
    requires k in left && k in es
    ensures Stale(es, at) - (left - {k}) ==
            if Unchanged(k, es[k], at(k)) then Stale(es, at) - left else Stale(es, at) - left + {k}
  {
  }

  ghost function Sweep(s: Shelf, gone: set<Text>): Shelf {
    Shelf(s.entries - gone, Keep(s.lru, gone), RecordBytes(s.entries - gone), |s.entries - gone|)
  }

  /** What the sweep leaves. */
  ghost function Swept(s: Shelf, at: Text -> World): Shelf { Sweep(s, Stale(s.entries, at)) }

  function NewQuery(c: Cache, active: bool): Cache {
    c.(active := active, query := c.query + 1, history := History(0, 0, 0))
  }

  ghost function SweepCache(c: Cache, at: Text -> World): Cache { c.(shelf := Swept(c.shelf, at)) }

  /** A new query begins: nothing is used yet. If it may use the cache, changed files' records go. */
  ghost function SetActive(c: Cache, active: bool, at: Text -> World): Cache {
    if active then SweepCache(NewQuery(c, active), at) else NewQuery(c, active)
  }

  lemma SetActiveKeepsCache(c: Cache, active: bool, at: Text -> World)
    requires CacheOk(c)
    ensures CacheOk(SetActive(c, active, at)) && UsedNow(SetActive(c, active, at).shelf, c.query + 1) == {}
  {
    SweepKeepsShelf(c.shelf, Stale(c.shelf.entries, at));
    var shelf := SetActive(c, active, at).shelf;
    assert forall k :: k in shelf.entries ==> k in c.shelf.entries && shelf.entries[k] == c.shelf.entries[k];
    assert UsedNow(shelf, c.query + 1) == {};
  }

  /** Everything goes; what the query had used of it counts as dropped. */
  ghost function Clear(c: Cache): (d: Cache)
    ensures CacheOk(c) ==> CacheOk(d)
  {
    c.(shelf := Shelf(map[], [], 0, 0),
       history := c.history.(dropped := c.history.dropped + |UsedNow(c.shelf, c.query)|))
  }

  ghost function Empty(maxFiles: nat, maxFileBytes: nat): (c: Cache)
    ensures maxFiles > 0 ==> CacheOk(c)
  {
    Cache(maxFiles, maxFileBytes, Shelf(map[], [], 0, 0), Tracker(seq(SLOTS, _ => 0), 0x9E3779B97F4A7C15), 0, true,
          Tally(0, 0, 0, 0, 0), History(0, 0, 0))
  }

  lemma {:induction false} RankedKeep(q: seq<Text>, es: map<Text, Entry>, gone: set<Text>, fs: map<Text, Entry>)
    requires NoDup(q) && Ranked(q, es)
    requires forall j :: j in es && j !in gone ==> j in fs && fs[j] == es[j]
    ensures Ranked(Keep(q, gone), fs)
  {
    if q != [] {
      assert q == [q[0]] + q[1..] && q[0] !in q[1..];
      RankedKeep(q[1..], es, gone, fs);
      KeepIsExact(q[1..], gone);
      if q[0] !in gone {
        assert ([q[0]] + Keep(q[1..], gone))[1..] == Keep(q[1..], gone);
      }
    }
  }

  lemma SweepKeepsShelf(s: Shelf, gone: set<Text>)
    requires ShelfOk(s)
    ensures ShelfOk(Sweep(s, gone)) && Sweep(s, gone).count <= s.count
  {
    KeepIsExact(s.lru, gone);
    RankedKeep(s.lru, s.entries, gone, s.entries - gone);
    Fewer((s.entries - gone).Keys, s.entries.Keys);
    assert |(s.entries - gone).Keys| == |s.entries - gone| && |s.entries.Keys| == |s.entries|;
  }
}
