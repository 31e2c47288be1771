/** DocumentCache, updated in place: each method does what the function of its name says. */
module DocumentCaches {
  import opened Bytes
  import opened FileWorld
  import opened CacheTracker
  import opened CacheState
  import S = CacheState

  class DocumentCache {
    const maxFiles: nat
    const maxFileBytes: nat
    var entries: map<Text, Entry>
    var lru: seq<Text>
    var bytes: int
    var count: int
    var seen: seq<nat>
    var victim: bv64
    var query: nat
    var active: bool
    var tally: Tally
    var history: History

    ghost function TheShelf(): Shelf
      reads this
    {
      Shelf(entries, lru, bytes, count)
    }

    ghost function View(): Cache
      reads this
    {
      Cache(maxFiles, maxFileBytes, TheShelf(), Tracker(seen, victim), query, active, tally, history)
    }

    constructor (maxFiles: nat, maxFileBytes: nat)
      ensures View() == Empty(maxFiles, maxFileBytes)
    {
      this.maxFiles, this.maxFileBytes := maxFiles, maxFileBytes;
      entries, lru, bytes, count := map[], [], 0, 0;
      seen, victim := seq(SLOTS, _ => 0), 0x9E3779B97F4A7C15;
      query, active := 0, true;
      tally, history := Tally(0, 0, 0, 0, 0), History(0, 0, 0);
    }

    method TrackerSlot(tag: nat) returns (i: nat)
      requires |seen| == SLOTS
      modifies this`victim
      ensures (i, Tracker(seen, victim)) == Slot(old(Tracker(seen, victim)), tag)
    {
      var base := Base(tag);
      ghost var ways := seen[base..base + WAYS];
      var found, empty := FindWay(tag);
      if found.Some? { return found.value; }
      if empty.Some? { return empty.value; }
      victim := XorShift(victim);
      HighBitsBelowWays(victim);
      return base + HighBits(victim) as nat;
    }

    /** The way that holds the tag or its refused mark, and if there is none the first empty one. */
    method FindWay(tag: nat) returns (found: Option<nat>, empty: Option<nat>)
      requires |seen| == SLOTS
      ensures var base := Base(tag); var ways := seen[base..base + WAYS];
        && found == (if FirstMatch(ways, tag) < WAYS then Some(base + FirstMatch(ways, tag)) else None)
        && (found.None? ==> empty == if FirstEmpty(ways) < WAYS then Some(base + FirstEmpty(ways)) else None)
    {
      var base := Base(tag);
      ghost var ways := seen[base..base + WAYS];
      found, empty := None, None;
      for way := 0 to WAYS
        invariant found.None? && LookedAt(ways, tag, base, way, empty)
      {
        assert ways[way] == seen[base + way];
        LookOn(ways, tag, base, way, empty);
        if Matches(seen[base + way], tag) { return Some(base + way), empty; }
        if seen[base + way] == 0 && empty.None? { empty := Some(base + way); }
      }
    }

    method Erase(k: Text)
      requires k in entries
      modifies this`entries, this`lru, this`bytes, this`count
      ensures TheShelf() == Drop(old(TheShelf()), k)
    {
      bytes := bytes - entries[k].bytes;
      lru := Without(lru, k);
      entries := entries - {k};
      count := |entries|;
    }

    method Get(path: Text, hash: nat, m: Moments, eng: Engine) returns (r: Option<Record>)
      requires CacheOk(View())
      modifies this
      ensures (View(), r) == S.Get(old(View()), path, hash, m, eng)
    {
      if !active || path == [] { return None; }
      var id := StatOf(m.stat, path);
      if id.None? { return None; }
      if id.value.size > maxFileBytes {
        Missed();
        return None;
      }
      r := Lookup(path, id.value, hash, m, eng);
    }

    method Hit(k: Text)
      requires k in entries
      modifies this`entries, this`lru, this`tally, this`history
      ensures View() == S.Hit(old(View()), k)
    {
      if entries[k].query != query { history := history.(found := history.found + 1); }
      tally := tally.(hits := tally.hits + 1);
      entries := entries[k := entries[k].(query := query)];
      lru := [k] + Without(lru, k);
    }

    method DropChanged(k: Text)
      requires k in entries
      modifies this`entries, this`lru, this`bytes, this`count, this`history
      ensures View() == S.DropChanged(old(View()), k)
    {
      if entries[k].query == query { history := history.(dropped := history.dropped + 1); }
      Erase(k);
    }

    method Missed()
      modifies this`tally
      ensures View() == S.Missed(old(View()))
    {
      tally := tally.(misses := tally.misses + 1);
    }

    /** get() for a file that is there and small enough. */
    method Lookup(path: Text, id: FileId, hash: nat, m: Moments, eng: Engine) returns (r: Option<Record>)
      requires RecordsOk(View()) && |seen| == SLOTS && StatOf(m.stat, path) == Some(id)
      modifies this
      ensures (View(), r) == S.Lookup(old(View()), path, id, hash, m, eng)
    {
      if path in entries {
        var e := entries[path];
        if id == e.id && CanonicalOf(m.path, path) == Some(e.canonical) {
          Hit(path);
          return Given(eng, e.record);
        }
        DropChangedKeepsCache(View(), path);
        DropChanged(path);
      }
      Missed();
      r := Miss(path, id, hash, m, eng);
    }

    method Miss(path: Text, id: FileId, hash: nat, m: Moments, eng: Engine) returns (r: Option<Record>)
      requires RecordsOk(View()) && |seen| == SLOTS && path !in entries
      modifies this
      ensures (View(), r) == S.Miss(old(View()), path, id, hash, m, eng)
    {
      var tag := TagOf(hash);
      var i := TrackerSlot(tag);
      r := Consider(path, id, tag, i, m, eng);
    }

    method Consider(path: Text, id: FileId, tag: nat, i: nat, m: Moments, eng: Engine) returns (r: Option<Record>)
      requires RecordsOk(View()) && i < |seen| && path !in entries
      modifies this
      ensures (View(), r) == S.Consider(old(View()), path, id, tag, i, m, eng)
    {
      if seen[i] == RefusedTag(tag) { return None; }
      if seen[i] != tag {
        seen := seen[i := tag];
        return None;
      }
      r := Admit(path, id, i, m, eng);
    }

    method Admit(path: Text, id: FileId, i: nat, m: Moments, eng: Engine) returns (r: Option<Record>)
      requires RecordsOk(View()) && path !in entries && i < |seen|
      modifies this
      ensures (View(), r) == S.Admit(old(View()), path, id, i, m, eng)
    {
      var worth := WorthATry(path, id, m, eng);
      if !worth { return None; }
      CountTry();
      r := Judge(path, id, CanonicalOf(m.path1, path).value, i, m, eng);
    }

    /** The guards of admit(), in their order. */
    method WorthATry(path: Text, id: FileId, m: Moments, eng: Engine) returns (worth: bool)
      requires ShelfOk(TheShelf()) && maxFiles > 0
      ensures worth <==> Admissible(View(), path, id, m, eng)
    {
      LastListed(TheShelf());
      if |entries| >= maxFiles && entries[lru[|lru| - 1]].query == query { return false; }
      if !eng.clock || ChangedJustNow(m.clock.now, id) { return false; }
      worth := CanonicalOf(m.path1, path).Some?;
    }

    /** A try counts as refused until it succeeds. */
    method CountTry()
      modifies this`tally
      ensures View() == Tried(old(View()))
    {
      tally := tally.(refused := tally.refused + 1);
    }

    method Judge(path: Text, id: FileId, canonical: Text, i: nat, m: Moments, eng: Engine) returns (r: Option<Record>)
      requires RecordsOk(View()) && !FullOfUsed(View()) && path !in entries && i < |seen|
      requires !ChangedJustNow(m.clock.now, id)
      modifies this
      ensures (View(), r) == S.Judge(old(View()), path, id, canonical, i, m, eng)
    {
      var record := Record(path, ContentAt(m.read, path));
      if !eng.read { return None; }
      if eng.error || eng.bytes > MAX_EXPANSION * (if id.size > 1024 then id.size else 1024) ||
         StatOf(m.stat2, path) != Some(id) || CanonicalOf(m.path2, path) != Some(canonical) {
        seen := seen[i := RefusedTag(seen[i])];
        return Some(record);
      }
      Evict();
      Store(path, Entry(canonical, id, record, eng.bytes, query), i);
      return Given(eng, record);
    }

    /** The eviction loop of admit(). */
    method Evict()
      requires maxFiles > 0 && ShelfOk(TheShelf())
      modifies this`entries, this`lru, this`bytes, this`count, this`tally
      ensures View() == S.Evict(old(View()))
    {
      ghost var c := View();
      while |entries| >= maxFiles
        invariant ShelfOk(TheShelf()) && S.Evict(View()) == S.Evict(c)
        decreases |entries|
      {
        EvictsOne(View());
        EvictOne();
      }
    }

    method EvictOne()
      requires HasColdest(TheShelf())
      modifies this`entries, this`lru, this`bytes, this`count, this`tally
      ensures View() == WithoutColdest(old(View()))
    {
      Erase(lru[|lru| - 1]);
      tally := tally.(evictions := tally.evictions + 1);
    }

    method Store(path: Text, e: Entry, i: nat)
      requires i < |seen|
      modifies this`entries, this`lru, this`bytes, this`count, this`tally, this`history, this`seen
      ensures View() == S.Store(old(View()), path, e, i)
    {
      Put(path, e);
      tally := tally.(refused := tally.refused - 1, admissions := tally.admissions + 1);
      history := history.(admitted := history.admitted + 1);
      seen := seen[i := 0];
    }

    method Put(path: Text, e: Entry)
      modifies this`entries, this`lru, this`bytes, this`count
      ensures TheShelf() == Insert(old(TheShelf()), path, e)
    {
      entries := entries[path := e];
      lru := [path] + lru;
      bytes := bytes + e.bytes;
      count := |entries|;
    }

    /** set_active(): the sweep visits the entries in an order that is no one's business. */
    method SetActive(active: bool, at: Text -> World)
      requires ShelfOk(TheShelf())
      modifies this
      ensures View() == S.SetActive(old(View()), active, at)
    {
      NewQuery(active);
      if active { SweepAll(at); }
    }

    method NewQuery(active: bool)
      modifies this`active, this`query, this`history
      ensures View() == S.NewQuery(old(View()), active)
    {
      this.active := active;
      query := query + 1;
      history := History(0, 0, 0);
    }

    method SweepAll(at: Text -> World)
      requires ShelfOk(TheShelf())
      modifies this`entries, this`lru, this`bytes, this`count
      ensures View() == SweepCache(old(View()), at)
    {
      SweepEach(at);
    }

    method SweepEach(at: Text -> World)
      requires ShelfOk(TheShelf())
      modifies this`entries, this`lru, this`bytes, this`count
      ensures TheShelf() == Swept(old(TheShelf()), at)
    {
      ghost var s := TheShelf();
      SweepNothing(s);
      var left := entries.Keys;
      assert Stale(entries, at) - left == {};
      while left != {}
        invariant SweptBut(s, TheShelf(), left, at)
        decreases |left|
      {
        var k :| k in left;
        SweptOneMore(s, TheShelf(), left, at, k);
        if !Unchanged(k, entries[k], at(k)) { Erase(k); }
        left := left - {k};
      }
      assert Stale(s.entries, at) - {} == Stale(s.entries, at);
    }

    method Clear()
      modifies this`entries, this`lru, this`bytes, this`count, this`history
      ensures View() == S.Clear(old(View()))
    {
      history := history.(dropped := history.dropped + |set k | k in entries && entries[k].query == query|);
      entries, lru, bytes, count := map[], [], 0, 0;
    }
  }

  /** The ways up to `way` hold no match, and `empty` is the first empty one of them. */
  ghost predicate LookedAt(ways: seq<nat>, tag: nat, base: nat, way: nat, empty: Option<nat>) {
    && FirstMatch(ways, tag) >= way
    && match empty
       case None => FirstEmpty(ways) >= way
       case Some(i) => FirstEmpty(ways) < way && i == base + FirstEmpty(ways)
  }

  lemma LookOn(ways: seq<nat>, tag: nat, base: nat, way: nat, empty: Option<nat>)
    requires LookedAt(ways, tag, base, way, empty) && way < |ways|
    ensures if Matches(ways[way], tag) then FirstMatch(ways, tag) == way
            else LookedAt(ways, tag, base, way + 1,
                          if ways[way] == 0 && empty.None? then Some(base + way) else empty)
  {
  }

  /** The sweep has come to all but those left. */
  ghost predicate SweptBut(s: Shelf, now: Shelf, left: set<Text>, at: Text -> World) {
    left <= s.entries.Keys && now == Sweep(s, Stale(s.entries, at) - left)
  }

  lemma SweptOneMore(s: Shelf, now: Shelf, left: set<Text>, at: Text -> World, k: Text)
    requires ShelfOk(s) && SweptBut(s, now, left, at) && k in left
    ensures k in now.entries && now.entries[k] == s.entries[k]
    ensures SweptBut(s, if Unchanged(k, now.entries[k], at(k)) then now else Drop(now, k), left - {k}, at)
  {
    StaleRound(s.entries, at, left, k);
    if !Unchanged(k, s.entries[k], at(k)) { SweepOneMore(s, Stale(s.entries, at) - left, k); }
  }

  lemma SweepNothing(s: Shelf)
    requires ShelfOk(s)
    ensures Sweep(s, {}) == s
  {
    KeepNone(s.lru);
    assert s.entries - {} == s.entries;
  }

  lemma SweepOneMore(s: Shelf, gone: set<Text>, k: Text)
    requires ShelfOk(s) && k in s.entries && k !in gone
    ensures k in Sweep(s, gone).entries && Drop(Sweep(s, gone), k) == Sweep(s, gone + {k})
  {
    KeepOneLess(s.lru, gone, k);
    TakeRecord(s.entries - gone, k);
    assert s.entries - gone - {k} == s.entries - (gone + {k});
  }
}
