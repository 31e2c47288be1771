/** Every operation on the scanner's state keeps its books, and forgets no file. */
module ScannerBooks {
  import opened Bytes
  import opened ScannerState

  // ---- The index

  lemma EraseKeepsBooks(x: Index, k: Text)
    requires Books(x) && k in x.entries
    ensures Books(Erase(x, k))
  {
    ForgetPreviewKeepsBooks(x, k);
    var y := ForgetPreview(x, k);
    TakeEntry(y.lim, y.entries, k);
  }

  lemma ForgetUnreadableKeepsBooks(x: Index, rel: Text)
    requires Books(x)
    ensures Books(ForgetUnreadable(x, rel))
  {
    if rel in x.unreadable { TakeDir(x.lim, x.unreadable, rel); }
  }

  lemma AddUnreadableKeepsBooks(x: Index, rel: Text)
    requires Books(x) && rel !in x.unreadable && x.bytes + DirCost(x.lim, rel) <= x.lim.maxMemory
    ensures Books(AddUnreadable(x, rel))
  {
    PutDir(x.lim, x.unreadable, rel);
  }

  lemma AddDirKeepsBooks(x: Index, rel: Text, d: KnownDir)
    requires Books(x) && rel !in x.knownDirs && x.bytes + DirCost(x.lim, rel) <= x.lim.maxMemory
    ensures Books(AddDir(x, rel, d))
  {
    PutDir(x.lim, x.knownDirs.Keys, rel);
    assert x.knownDirs[rel := d].Keys == x.knownDirs.Keys + {rel};
  }

  lemma AddEntryKeepsBooks(x: Index, rel: Text, st: Stat)
    requires Books(x) && rel !in x.entries && x.bytes + EntryCost(x.lim, rel) <= x.lim.maxMemory
    ensures Books(AddEntry(x, rel, st))
  {
    PutEntry(x.lim, x.entries, rel, Entry(FormatOf(rel), st, 0, false, false, None));
  }

  /** Replacing an entry by one with the same preview, mark and status changes no book. */
  lemma ReplaceKeepsBooks(x: Index, rel: Text, e: Entry)
    requires Books(x) && rel in x.entries
    requires e.held == x.entries[rel].held && e.sampled == x.entries[rel].sampled
    requires e.held.Some? ==> e.stat == x.entries[rel].stat
    ensures Books(Replace(x, rel, e))
  {
    PutEntry(x.lim, x.entries, rel, e);
  }

  lemma MarkSampledKeepsBooks(x: Index, rel: Text)
    requires Books(x) && rel in x.entries
    ensures Books(MarkSampled(x, rel))
  {
    PutEntry(x.lim, x.entries, rel, x.entries[rel].(sampled := true));
  }

  lemma RestatKeepsBooks(x: Index, rel: Text, st: Stat, stamp: nat)
    requires Books(x) && rel in x.entries
    ensures Books(Restat(x, rel, st, stamp))
  {
    var e := x.entries[rel].(seen := stamp);
    ReplaceKeepsBooks(x, rel, e);
    if e.stat != st {
      var y := Replace(x, rel, e);
      ForgetPreviewKeepsBooks(y, rel);
      var z := ForgetPreview(y, rel);
      ReplaceKeepsBooks(z, rel, z.entries[rel].(queued := false, stat := st));
    }
  }

  lemma HoldKeepsBooks(x: Index, rel: Text, p: Preview, recent: bool)
    requires Books(x) && rel in x.entries && x.entries[rel].held.None?
    requires x.bytes + PreviewCost(x.lim, p) <= x.lim.maxMemory
    ensures Books(HoldPreview(x, rel, p, x.entries[rel].stat, recent))
  {
    var y := HoldPreview(x, rel, p, x.entries[rel].stat, recent);
    PutEntry(x.lim, x.entries, rel, y.entries[rel]);
    assert rel !in x.lru;
    assert LruOk(y);
  }

  // ---- The whole state

  /**
    * Every indexed file is sampled, waits in theFiles, or is one of those spared (in the sampler's
    * hand, or any at all once the scanner stops); unless sampling has stopped, as the status says.
    */
  ghost predicate Accounted(s: State, spared: iset<Text>) {
    && (s.flags.samplingStopped ==> s.flags.limitHit)
    && (s.flags.samplingStopped ||
        forall k :: k in s.ix.entries ==> s.ix.entries[k].sampled || k in s.files || k in spared)
  }

  ghost predicate Good(s: State, spared: iset<Text>) {
    Books(s.ix) && Accounted(s, spared)
  }

  lemma RoomKeepsAccounts(s: State, cost: nat, spared: iset<Text>)
    requires Good(s, spared)
    ensures Good(RoomInIndex(s, cost).0, spared)
  {
  }

  lemma NoteUnreadableKeepsGood(s: State, rel: Text, spared: iset<Text>)
    requires Good(s, spared)
    ensures Good(NoteUnreadable(s, rel), spared)
  {
    if rel !in s.ix.unreadable {
      RoomKeepsAccounts(s, DirCost(s.ix.lim, rel), spared);
      var (t, room) := RoomInIndex(s, DirCost(s.ix.lim, rel));
      if room { AddUnreadableKeepsBooks(t.ix, rel); }
    }
  }

  lemma MergeDirKeepsGood(s: State, rel: Text, mtime: int, spared: iset<Text>)
    requires Good(s, spared)
    ensures Good(MergeDir(s, rel, mtime), spared)
  {
    if rel in s.ix.knownDirs {
      assert s.ix.knownDirs[rel := KnownDir(mtime, s.stamp)].Keys == s.ix.knownDirs.Keys;
    } else if !s.flags.indexFull && Slashes(rel) < MAX_WALK_DEPTH {
      RoomKeepsAccounts(s, DirCost(s.ix.lim, rel), spared);
      var (t, room) := RoomInIndex(s, DirCost(s.ix.lim, rel));
      if room { AddDirKeepsBooks(t.ix, rel, KnownDir(mtime, t.stamp)); }
    }
  }

  lemma SettleKeepsBooks(s: State, rel: Text)
    requires Books(s.ix) && rel in s.ix.entries
    ensures Books(Settle(s, rel).ix)
  {
    if s.ix.entries[rel].format.NoFormat? {
      MarkSampledKeepsBooks(s.ix, rel);
    } else {
      ReplaceKeepsBooks(s.ix, rel, s.ix.entries[rel].(queued := true));
    }
  }

  lemma TouchKeepsBooks(s: State, rel: Text, st: Stat)
    requires Books(s.ix) && rel in s.ix.entries
    ensures Books(Touch(s, rel, st).ix)
  {
    RestatKeepsBooks(s.ix, rel, st, s.stamp);
    SettleKeepsBooks(s.(ix := Restat(s.ix, rel, st, s.stamp)), rel);
  }

  /** Restat touches one entry, and takes back its mark only with a request to queue it anew. */
  lemma RestatFrame(x: Index, rel: Text, st: Stat, stamp: nat)
    requires rel in x.entries
    ensures var y := Restat(x, rel, st, stamp);
      && y.entries.Keys == x.entries.Keys
      && (forall k :: k in x.entries && k != rel ==> y.entries[k] == x.entries[k])
      && y.entries[rel].stat == st && y.entries[rel].seen == stamp
      && y.entries[rel].format == x.entries[rel].format
      && (x.entries[rel].stat == st ==> y.entries[rel] == x.entries[rel].(seen := stamp))
      && (x.entries[rel].stat != st ==> !y.entries[rel].queued)
  {
  }

  ghost predicate AccountedBut(s: State, rel: Text, spared: iset<Text>) {
    && (s.flags.samplingStopped ==> s.flags.limitHit)
    && (s.flags.samplingStopped ||
        forall k :: k in s.ix.entries ==>
          || s.ix.entries[k].sampled || k in s.files || k in spared
          || (k == rel && !s.ix.entries[k].queued))
  }

  lemma SettleAccounts(s: State, rel: Text, spared: iset<Text>)
    requires rel in s.ix.entries && AccountedBut(s, rel, spared)
    ensures Accounted(Settle(s, rel), spared)
  {
    var t := Settle(s, rel);
    assert t.ix.entries.Keys == s.ix.entries.Keys;
    if !s.flags.samplingStopped {
      assert t.ix.entries[rel].sampled || rel in t.files || rel in spared;
    }
  }

  lemma RestatAccounts(s: State, x: Index, rel: Text, st: Stat, spared: iset<Text>)
    requires rel in s.ix.entries && AccountedBut(s, rel, spared)
    requires x == Restat(s.ix, rel, st, s.stamp)
    ensures rel in x.entries && AccountedBut(s.(ix := x), rel, spared)
  {
    RestatFrame(s.ix, rel, st, s.stamp);
  }

  /** A file just merged is accounted for, whatever was known of it before. */
  lemma TouchAccounts(s: State, rel: Text, st: Stat, spared: iset<Text>)
    requires rel in s.ix.entries && AccountedBut(s, rel, spared)
    ensures Accounted(Touch(s, rel, st), spared)
  {
    RestatAccounts(s, Restat(s.ix, rel, st, s.stamp), rel, st, spared);
    SettleAccounts(s.(ix := Restat(s.ix, rel, st, s.stamp)), rel, spared);
  }

  lemma MergeFileKeepsGood(s: State, rel: Text, st: Stat, spared: iset<Text>)
    requires Good(s, spared)
    ensures Good(MergeFile(s, rel, st).0, spared)
  {
    if rel in s.ix.entries {
      TouchKeepsBooks(s, rel, st);
      TouchAccounts(s, rel, st, spared);
    } else {
      RoomKeepsAccounts(s, EntryCost(s.ix.lim, rel), spared);
      var (t, room) := RoomInIndex(s, EntryCost(s.ix.lim, rel));
      if room {
        AddEntryKeepsBooks(t.ix, rel, st);
        var u := t.(ix := AddEntry(t.ix, rel, st));
        TouchKeepsBooks(u, rel, st);
        TouchAccounts(u, rel, st, spared);
      }
    }
  }

  lemma SettleFrame(s: State, rel: Text)
    requires rel in s.ix.entries
    ensures Settle(s, rel).ix.entries.Keys == s.ix.entries.Keys
    ensures Settle(s, rel).ix.entries[rel].stat == s.ix.entries[rel].stat
    ensures Settle(s, rel).ix.entries[rel].seen == s.ix.entries[rel].seen
    ensures Settle(s, rel).ix.entries[rel].held == s.ix.entries[rel].held
  {
  }

  lemma TouchFrame(s: State, rel: Text, st: Stat)
    requires rel in s.ix.entries
    ensures Touch(s, rel, st).ix.entries.Keys == s.ix.entries.Keys
    ensures Touch(s, rel, st).ix.entries[rel].stat == st && Touch(s, rel, st).ix.entries[rel].seen == s.stamp
  {
    RestatFrame(s.ix, rel, st, s.stamp);
    SettleFrame(s.(ix := Restat(s.ix, rel, st, s.stamp)), rel);
  }

  /** merge_file leaves the entry, if there is one, at the status the caller saw, and marked as seen. */
  lemma MergedStat(s: State, rel: Text, st: Stat)
    requires Books(s.ix)
    ensures var (t, merged) := MergeFile(s, rel, st);
      && (merged <==> rel in t.ix.entries)
      && (merged ==> t.ix.entries[rel].stat == st && t.ix.entries[rel].seen == s.stamp)
  {
    if rel in s.ix.entries {
      TouchFrame(s, rel, st);
    } else {
      var (t, room) := RoomInIndex(s, EntryCost(s.ix.lim, rel));
      assert MergeFile(s, rel, st).1 == room && t.stamp == s.stamp;
      if room { AddedStat(t, rel, st); }
    }
  }

  lemma AddedStat(t: State, rel: Text, st: Stat)
    ensures var u := Touch(t.(ix := AddEntry(t.ix, rel, st)), rel, st);
      rel in u.ix.entries && u.ix.entries[rel].stat == st && u.ix.entries[rel].seen == t.stamp
  {
    TouchFrame(t.(ix := AddEntry(t.ix, rel, st)), rel, st);
  }

  lemma StoreSampledKeepsBooks(s: State, rel: Text, readIn: nat, st: Stat, p: Preview)
    requires Books(s.ix)
    ensures Books(StoreSampled(s, rel, readIn, st, p).ix)
  {
    if readIn == s.gen && rel in s.ix.entries && !s.ix.entries[rel].sampled
       && s.ix.bytes + PreviewCost(s.ix.lim, p) <= s.ix.lim.maxMemory {
      assert s.ix.entries[rel].held.None?;
      ForgetPreviewKeepsBooks(s.ix, rel);
      var x := ForgetPreview(s.ix, rel);
      ReplaceKeepsBooks(x, rel, x.entries[rel].(stat := st));
      HoldKeepsBooks(Replace(x, rel, x.entries[rel].(stat := st)), rel, p, false);
    }
  }

  /** What the sampler had in hand is accounted for without it once it is stored. */
  lemma StoreSampledAccounts(s: State, rel: Text, st: Stat, p: Preview, spared: iset<Text>)
    requires Accounted(s, spared + iset{rel})
    ensures Accounted(StoreSampled(s, rel, s.gen, st, p), spared)
  {
  }

  lemma HoldRequestedKeepsBooks(s: State, rel: Text, p: Preview)
    requires Books(s.ix) && rel in s.ix.entries && s.ix.entries[rel].held.None?
    ensures Books(HoldRequested(s, rel, s.ix.entries[rel].stat, p).ix)
  {
    var cost := PreviewCost(s.ix.lim, p);
    if s.ix.bytes - s.ix.previewBytes + cost <= s.ix.lim.maxMemory {
      var y := EvictToFit(s.ix, cost);
      EvictionFreesPreviews(s.ix, y);
      HoldKeepsBooks(y, rel, p, true);
    }
  }

  /** Whatever else happens, the file asked for is sampled in the end, or sampling has stopped. */
  lemma HoldRequestedAccounts(s: State, rel: Text, st: Stat, p: Preview, spared: iset<Text>)
    requires Books(s.ix) && rel in s.ix.entries && Accounted(s, spared + iset{rel})
    ensures Accounted(HoldRequested(s, rel, st, p), spared)
  {
  }

  lemma StoreRequestedKeepsGood(s: State, rel: Text, st: Stat, p: Preview, spared: iset<Text>)
    requires Good(s, spared) && rel in s.ix.entries && s.ix.entries[rel].stat == st
    ensures Good(StoreRequested(s, rel, st, p), spared)
  {
    ForgetPreviewKeepsBooks(s.ix, rel);
    var t := s.(ix := ForgetPreview(s.ix, rel));
    HoldRequestedKeepsBooks(t, rel, p);
    HoldRequestedAccounts(t, rel, st, p, spared);
  }

  lemma PromoteKeepsBooks(x: Index, rel: Text)
    requires Books(x) && rel in x.lru
    ensures Books(Promote(x, rel))
  {
    WithoutIsExact(x.lru, rel);
    var rest := Without(x.lru, rel);
    assert NoDup([rel] + rest);
  }

  // ---- Where previews go

  /** A sample evicts nothing: the other files stay as they are, and its preview is the first to go. */
  lemma SampleEvictsNothing(s: State, rel: Text, st: Stat, p: Preview)
    requires Books(s.ix)
    ensures var t := StoreSampled(s, rel, s.gen, st, p);
      && t.ix.entries.Keys == s.ix.entries.Keys
      && (forall k :: k in s.ix.entries && k != rel ==> t.ix.entries[k] == s.ix.entries[k])
      && (t.ix.lru == s.ix.lru || t.ix.lru == s.ix.lru + [rel])
      && (t.ix.lru != s.ix.lru ==> t.ix.entries[rel].held.Some? && t.ix.entries[rel].held.value.preview == p)
  {
    if rel in s.ix.entries { assert EntryOk(s.ix.lim, s.ix.entries[rel]); }
  }

  /** What a request read is kept exactly if it fits beside the index, as the last one to go. */
  lemma RequestedComesFirst(s: State, rel: Text, st: Stat, p: Preview)
    requires Books(s.ix) && rel in s.ix.entries && s.ix.entries[rel].held.None?
    ensures var t := HoldRequested(s, rel, st, p);
      var fits := s.ix.bytes - s.ix.previewBytes + PreviewCost(s.ix.lim, p) <= s.ix.lim.maxMemory;
      && (fits <==> rel in t.ix.entries && t.ix.entries[rel].held.Some?)
      && (fits ==> t.ix.lru != [] && t.ix.lru[0] == rel && t.ix.lru[1..] <= s.ix.lru
                   && t.ix.entries[rel].held.value.preview == p && t.ix.entries[rel].held.value.madeFrom == st)
      && (!fits ==> t.flags.samplingStopped && t.ix == s.ix)
  {
  }
}
