/** What a listing puts in the index, and what is there when it has gone through the whole directory. */
module ScannerListings {
  import opened Bytes
  import opened PathOrder
  import opened ScannerState
  import opened ScannerBooks
  import opened ScannerTrees
  import opened ScannerRun
  import opened ScannerTheorems

  /** The key of a name in a directory: at the root the name itself. */
  function Key(dir: Text, name: Text): Text { if dir == [] then name else dir + [47] + name }

  lemma KeysDiffer(dir: Text, a: Text, b: Text)
    ensures Key(dir, a) == Key(dir, b) ==> a == b
  {
    if dir != [] && Key(dir, a) == Key(dir, b) {
      assert (dir + [47] + a)[|dir| + 1..] == a && (dir + [47] + b)[|dir| + 1..] == b;
    }
  }

  // ---- One file, one directory

  /** The other files keep their status and their mark, and stay or are missing as before. */
  ghost predicate OtherFilesStay(x: Index, y: Index, but: iset<Text>) {
    forall k :: k !in but ==>
      && (k in y.entries <==> k in x.entries)
      && (k in x.entries ==> y.entries[k].stat == x.entries[k].stat && y.entries[k].seen == x.entries[k].seen)
  }

  ghost predicate OtherDirsStay(x: Index, y: Index, but: iset<Text>) {
    forall k :: k !in but ==>
      (k in y.knownDirs <==> k in x.knownDirs) && (k in x.knownDirs ==> y.knownDirs[k] == x.knownDirs[k])
  }

  /** A full index stays full, and the limit that was hit stays hit. */
  predicate FlagsStay(s: State, t: State) {
    && t.stamp == s.stamp && t.gen == s.gen
    && (s.flags.indexFull ==> t.flags.indexFull) && (s.flags.limitHit ==> t.flags.limitHit)
    && (s.flags.tooDeep ==> t.flags.tooDeep)
  }

  lemma RoomStays(s: State, cost: nat)
    requires Books(s.ix)
    ensures var (t, room) := RoomInIndex(s, cost);
      && OtherFilesStay(s.ix, t.ix, iset{}) && t.ix.knownDirs == s.ix.knownDirs && FlagsStay(s, t)
      && (!room ==> t.flags.indexFull && t.flags.limitHit)
  {
  }

  lemma TouchStays(s: State, rel: Text, st: Stat)
    requires rel in s.ix.entries
    ensures var t := Touch(s, rel, st);
      OtherFilesStay(s.ix, t.ix, iset{rel}) && t.ix.knownDirs == s.ix.knownDirs && FlagsStay(s, t) && t.flags == s.flags
  {
    RestatFrame(s.ix, rel, st, s.stamp);
  }

  /** A file that is met is in the index as it is met, or there was no room for it, and the status says so. */
  lemma FileIsMerged(s: State, rel: Text, st: Stat)
    requires Books(s.ix)
    ensures var (t, merged) := MergeFile(s, rel, st);
      && OtherFilesStay(s.ix, t.ix, iset{rel}) && t.ix.knownDirs == s.ix.knownDirs && FlagsStay(s, t)
      && (merged <==> rel in t.ix.entries)
      && (merged ==> t.ix.entries[rel].stat == st && t.ix.entries[rel].seen == s.stamp)
      && (!merged ==> t.flags.indexFull && t.flags.limitHit)
  {
    MergedStat(s, rel, st);
    if rel in s.ix.entries {
      TouchStays(s, rel, st);
    } else {
      RoomStays(s, EntryCost(s.ix.lim, rel));
      var (t, room) := RoomInIndex(s, EntryCost(s.ix.lim, rel));
      if room { TouchStays(t.(ix := AddEntry(t.ix, rel, st)), rel, st); }
    }
  }

  /** A file that is not yet in the index finds room exactly if its charge fits beside what is no preview. */
  lemma FileFitsIff(s: State, rel: Text, st: Stat)
    requires Books(s.ix)
    ensures MergeFile(s, rel, st).1 <==>
      || rel in s.ix.entries
      || s.ix.bytes - s.ix.previewBytes + s.ix.lim.entryBytes + 64 + 2 * (s.ix.lim.stringBytes + |rel| + 33) <=
         s.ix.lim.maxMemory
  {
  }

  /** How many of the first n bytes are slashes. */
  function SlashesIn(rel: Text, n: nat): nat
    requires n <= |rel|
  {
    if n == 0 then 0 else SlashesIn(rel, n - 1) + if rel[n - 1] == 47 then 1 else 0
  }

  predicate IsTooDeep(rel: Text) { SlashesIn(rel, |rel|) >= 256 }

  lemma {:induction false} SlashesSnoc(rel: Text, b: Byte)
    ensures Slashes(rel + [b]) == Slashes(rel) + if b == 47 then 1 else 0
  {
    if rel == [] {
      assert (rel + [b])[1..] == [];
    } else {
      assert (rel + [b])[1..] == rel[1..] + [b];
      SlashesSnoc(rel[1..], b);
    }
  }

  lemma {:induction false} SlashesAre(rel: Text, n: nat)
    requires n <= |rel|
    ensures Slashes(rel[..n]) == SlashesIn(rel, n)
  {
    if n > 0 {
      SlashesAre(rel, n - 1);
      SlashesSnoc(rel[..n - 1], rel[n - 1]);
      assert rel[..n - 1] + [rel[n - 1]] == rel[..n];
    }
  }

  /** A directory that is met is known with its time and mark, or is too deep, or the index is full. */
  lemma DirIsMerged(s: State, rel: Text, mtime: int)
    requires Books(s.ix)
    ensures var t := MergeDir(s, rel, mtime);
      && OtherFilesStay(s.ix, t.ix, iset{}) && OtherDirsStay(s.ix, t.ix, iset{rel}) && FlagsStay(s, t)
      && if rel in t.ix.knownDirs then t.ix.knownDirs[rel] == KnownDir(mtime, s.stamp)
         else t.flags.indexFull || (IsTooDeep(rel) && t.flags.tooDeep)
  {
    SlashesAre(rel, |rel|);
    assert rel[..|rel|] == rel;
    if rel !in s.ix.knownDirs { NewDirIsMerged(s, rel, mtime); }
  }

  lemma NewDirIsMerged(s: State, rel: Text, mtime: int)
    requires Books(s.ix) && rel !in s.ix.knownDirs
    ensures var t := MergeDir(s, rel, mtime);
      && OtherFilesStay(s.ix, t.ix, iset{}) && OtherDirsStay(s.ix, t.ix, iset{rel}) && FlagsStay(s, t)
      && if rel in t.ix.knownDirs then t.ix.knownDirs[rel] == KnownDir(mtime, s.stamp)
         else t.flags.indexFull || (Slashes(rel) >= 256 && t.flags.tooDeep)
  {
    RoomStays(s, DirCost(s.ix.lim, rel));
  }

  /** A new directory is known exactly if its charge fits, the index is not full and it is not too deep. */
  lemma DirFitsIff(s: State, rel: Text, mtime: int)
    requires Books(s.ix) && rel !in s.ix.knownDirs
    ensures rel in MergeDir(s, rel, mtime).ix.knownDirs <==>
      && !s.flags.indexFull && !IsTooDeep(rel)
      && s.ix.bytes - s.ix.previewBytes + s.ix.lim.dirBytes + 64 + 2 * (s.ix.lim.stringBytes + |rel| + 33) <=
         s.ix.lim.maxMemory
  {
    SlashesAre(rel, |rel|);
    assert rel[..|rel|] == rel;
    RoomStays(s, DirCost(s.ix.lim, rel));
  }

  // ---- A batch

  /** What was listed is in the index with the stamp, or the reason why not is given. */
  ghost predicate IsListed(t: State, dir: Text, de: DirEntry, stamp: nat) {
    var k := Key(dir, de.name);
    if de.isDir then
      if k in t.ix.knownDirs then t.ix.knownDirs[k] == KnownDir(de.stat.mtime, stamp)
      else t.flags.indexFull || (IsTooDeep(k) && t.flags.tooDeep)
    else
      if k in t.ix.entries then t.ix.entries[k].stat == de.stat && t.ix.entries[k].seen == stamp
      else t.flags.indexFull && t.flags.limitHit
  }

  predicate DistinctEntries(batch: seq<DirEntry>) {
    forall i, j :: 0 <= i < j < |batch| ==> batch[i].name != batch[j].name
  }

  /** The keys of the directories that were listed, or of the files. */
  ghost function KeysOf(dir: Text, batch: seq<DirEntry>, isDir: bool): iset<Text> {
    iset i | 0 <= i < |batch| && batch[i].isDir == isDir :: Key(dir, batch[i].name)
  }

  ghost function KeyOf(dir: Text, de: DirEntry, isDir: bool): iset<Text> {
    if de.isDir == isDir then iset{Key(dir, de.name)} else iset{}
  }

  ghost predicate BatchMerged(s: State, t: State, dir: Text, batch: seq<DirEntry>) {
    && (forall i :: 0 <= i < |batch| ==> IsListed(t, dir, batch[i], s.stamp))
    && OtherFilesStay(s.ix, t.ix, KeysOf(dir, batch, false)) && OtherDirsStay(s.ix, t.ix, KeysOf(dir, batch, true))
    && FlagsStay(s, t)
  }

  lemma OneIsMerged(s: State, dir: Text, de: DirEntry)
    requires Good(s, ALL)
    ensures var t := MergeOne(s, dir, de);
      && IsListed(t, dir, de, s.stamp) && FlagsStay(s, t)
      && OtherFilesStay(s.ix, t.ix, KeyOf(dir, de, false)) && OtherDirsStay(s.ix, t.ix, KeyOf(dir, de, true))
  {
    var k := Key(dir, de.name);
    if de.isDir {
      DirIsMerged(s, k, de.stat.mtime);
    } else {
      FileIsMerged(s, k, de.stat);
    }
  }

  /** What was listed before stays so while others are. */
  lemma StaysListed(t: State, u: State, dir: Text, de: DirEntry, stamp: nat, files: iset<Text>, dirs: iset<Text>)
    requires IsListed(t, dir, de, stamp) && Key(dir, de.name) !in files && Key(dir, de.name) !in dirs
    requires OtherFilesStay(t.ix, u.ix, files) && OtherDirsStay(t.ix, u.ix, dirs) && FlagsStay(t, u)
    ensures IsListed(u, dir, de, stamp)
  {
  }

  lemma KeyNotAmong(dir: Text, name: Text, batch: seq<DirEntry>, isDir: bool)
    requires forall i :: 0 <= i < |batch| ==> batch[i].name != name
    ensures Key(dir, name) !in KeysOf(dir, batch, isDir)
  {
    forall i | 0 <= i < |batch|
      ensures Key(dir, name) != Key(dir, batch[i].name)
    {
      KeysDiffer(dir, name, batch[i].name);
    }
  }

  lemma KeysCons(dir: Text, batch: seq<DirEntry>, isDir: bool)
    requires batch != []
    ensures KeysOf(dir, batch, isDir) == KeyOf(dir, batch[0], isDir) + KeysOf(dir, batch[1..], isDir)
  {
    var rest := batch[1..];
    forall k
      ensures k in KeysOf(dir, batch, isDir) <==> k in KeyOf(dir, batch[0], isDir) || k in KeysOf(dir, rest, isDir)
    {
      if k in KeysOf(dir, batch, isDir) {
        var i :| 0 <= i < |batch| && batch[i].isDir == isDir && k == Key(dir, batch[i].name);
        if i > 0 { assert rest[i - 1] == batch[i]; }
      }
      if k in KeysOf(dir, rest, isDir) {
        var i :| 0 <= i < |rest| && rest[i].isDir == isDir && k == Key(dir, rest[i].name);
        assert batch[i + 1] == rest[i];
      }
    }
  }

  lemma FilesStayBoth(x: Index, y: Index, z: Index, a: iset<Text>, b: iset<Text>)
    requires OtherFilesStay(x, y, a) && OtherFilesStay(y, z, b)
    ensures OtherFilesStay(x, z, a + b)
  {
  }

  lemma DirsStayBoth(x: Index, y: Index, z: Index, a: iset<Text>, b: iset<Text>)
    requires OtherDirsStay(x, y, a) && OtherDirsStay(y, z, b)
    ensures OtherDirsStay(x, z, a + b)
  {
  }

  lemma {:induction false} BatchIsMerged(s: State, dir: Text, batch: seq<DirEntry>)
    requires Good(s, ALL) && DistinctEntries(batch)
    ensures BatchMerged(s, MergeBatch(s, dir, batch), dir, batch)
    decreases |batch|
  {
    if batch != [] {
      var t, rest := MergeOne(s, dir, batch[0]), batch[1..];
      OneIsMerged(s, dir, batch[0]);
      BatchIsMerged(t, dir, rest);
      JoinBatch(s, t, MergeBatch(t, dir, rest), dir, batch);
    }
  }

  lemma JoinBatch(s: State, t: State, u: State, dir: Text, batch: seq<DirEntry>)
    requires batch != [] && DistinctEntries(batch) && IsListed(t, dir, batch[0], s.stamp) && FlagsStay(s, t)
    requires OtherFilesStay(s.ix, t.ix, KeyOf(dir, batch[0], false))
    requires OtherDirsStay(s.ix, t.ix, KeyOf(dir, batch[0], true))
    requires BatchMerged(t, u, dir, batch[1..])
    ensures BatchMerged(s, u, dir, batch)
  {
    var first, rest := batch[0], batch[1..];
    KeyNotAmong(dir, first.name, rest, false);
    KeyNotAmong(dir, first.name, rest, true);
    StaysListed(t, u, dir, first, s.stamp, KeysOf(dir, rest, false), KeysOf(dir, rest, true));
    forall i | 0 <= i < |batch|
      ensures IsListed(u, dir, batch[i], s.stamp)
    {
      if i > 0 { assert batch[i] == rest[i - 1]; }
    }
    KeysCons(dir, batch, false);
    KeysCons(dir, batch, true);
    FilesStayBoth(s.ix, t.ix, u.ix, KeyOf(dir, first, false), KeysOf(dir, rest, false));
    DirsStayBoth(s.ix, t.ix, u.ix, KeyOf(dir, first, true), KeysOf(dir, rest, true));
  }

  /** A batch of the walker: with nothing in its way it is merged, and else nothing changes. */
  lemma WalkerListsBatch(sys: System, batch: seq<DirEntry>)
    requires Inv(sys) && Enabled(sys, WalkBatch(batch)) && DistinctEntries(batch)
    ensures var next := Next(sys, WalkBatch(batch));
      if sys.walker.gen == sys.s.gen && !sys.stopping && !sys.s.flags.indexFull then
        next == sys.(s := next.s) && BatchMerged(sys.s, next.s, sys.walker.dir, batch)
      else next == sys.(walker := sys.walker.(refused := true))
  {
    BatchIsMerged(sys.s, sys.walker.dir, batch);
  }

  /** A batch of a request: a full index does not end it. */
  lemma RequestListsBatch(sys: System, batch: seq<DirEntry>)
    requires Inv(sys) && Enabled(sys, AskBatch(batch)) && DistinctEntries(batch)
    ensures var next := Next(sys, AskBatch(batch));
      if sys.asker.gen == sys.s.gen && !sys.stopping then
        next == sys.(s := next.s) && BatchMerged(sys.s, next.s, sys.asker.dir, batch)
      else next == sys.(asker := sys.asker.(refused := true))
  {
    BatchIsMerged(sys.s, sys.asker.dir, batch);
  }

  // ---- Marks are of the past

  /** No file and no directory is marked with a stamp that was not yet given. */
  ghost predicate Marked(s: State) {
    && (forall k :: k in s.ix.entries ==> s.ix.entries[k].seen <= s.stamp)
    && (forall k :: k in s.ix.knownDirs ==> s.ix.knownDirs[k].seen <= s.stamp)
  }

  /** Nothing is marked anew. */
  ghost predicate MarksStay(s: State, t: State) {
    && t.stamp == s.stamp
    && (forall k :: k in t.ix.entries ==> k in s.ix.entries && t.ix.entries[k].seen == s.ix.entries[k].seen)
    && (forall k :: k in t.ix.knownDirs ==> k in s.ix.knownDirs && t.ix.knownDirs[k].seen == s.ix.knownDirs[k].seen)
  }

  lemma MarksStayMarked(s: State, t: State)
    requires Marked(s) && MarksStay(s, t)
    ensures Marked(t)
  {
  }

  lemma FileKeepsMarks(s: State, rel: Text, st: Stat)
    requires Books(s.ix) && Marked(s)
    ensures Marked(MergeFile(s, rel, st).0)
  {
    FileIsMerged(s, rel, st);
  }

  lemma DirKeepsMarks(s: State, rel: Text, mtime: int)
    requires Books(s.ix) && Marked(s)
    ensures Marked(MergeDir(s, rel, mtime))
  {
    DirIsMerged(s, rel, mtime);
  }

  lemma {:induction false} BatchKeepsMarks(s: State, dir: Text, batch: seq<DirEntry>)
    requires Good(s, ALL) && Marked(s)
    ensures Marked(MergeBatch(s, dir, batch))
    decreases |batch|
  {
    if batch != [] {
      FileKeepsMarks(s, Child(dir, batch[0].name), batch[0].stat);
      DirKeepsMarks(s, Child(dir, batch[0].name), batch[0].stat.mtime);
      BatchKeepsMarks(MergeOne(s, dir, batch[0]), dir, batch[1..]);
    }
  }

  lemma {:induction false} EachKeepsMarks(s: State, changed: seq<(Text, Stat)>)
    requires Good(s, ALL) && Marked(s)
    ensures Marked(MergeEach(s, changed))
    decreases |changed|
  {
    if changed != [] {
      MergeFileKeepsGood(s, changed[0].0, changed[0].1, ALL);
      FileKeepsMarks(s, changed[0].0, changed[0].1);
      EachKeepsMarks(MergeFile(s, changed[0].0, changed[0].1).0, changed[1..]);
    }
  }

  lemma EndKeepsMarks(s: State, dir: Text, gen: nat, start: nat, o: Outcome)
    requires Books(s.ix) && Marked(s)
    ensures Marked(EndListing(s, dir, gen, start, o))
  {
    if o.Denied? && dir !in s.ix.unreadable { RoomStays(s, DirCost(s.ix.lim, dir)); }
  }

  lemma HoldKeepsMarks(s: State, rel: Text, st: Stat, p: Preview)
    requires Books(s.ix) && rel in s.ix.entries
    ensures MarksStay(s, HoldRequested(s, rel, st, p))
  {
  }

  lemma SampledKeepsMarks(s: State, rel: Text, gen: nat, st: Stat, p: Preview)
    ensures MarksStay(s, StoreSampled(s, rel, gen, st, p))
  {
  }

  lemma ReadKeepsMarks(s: State, rel: Text, gen: nat, asked: bool, read: Read)
    requires Good(s, ALL) && Marked(s)
    ensures Marked(StoreRead(s, rel, gen, asked, read))
  {
    match read
    case Opened(st, p) =>
      if !asked {
        SampledKeepsMarks(s, rel, gen, st, p);
      } else if gen == s.gen {
        AskedKeepsMarks(s, rel, st, p);
      }
    case Gone(_) =>
    case OpenFailed(why) =>
      if rel in s.ix.entries { SampledKeepsMarks(s, rel, gen, s.ix.entries[rel].stat, Preview(why, [])); }
  }

  lemma AskedKeepsMarks(s: State, rel: Text, st: Stat, p: Preview)
    requires Good(s, ALL) && Marked(s)
    ensures Marked(StoreRead(s, rel, s.gen, true, Opened(st, p)))
  {
    MergeFileKeepsGood(s, rel, st, ALL);
    FileKeepsMarks(s, rel, st);
    var (t, merged) := MergeFile(s, rel, st);
    if merged && rel in t.ix.entries {
      ForgetPreviewKeepsBooks(t.ix, rel);
      HoldKeepsMarks(t.(ix := ForgetPreview(t.ix, rel)), rel, st, p);
    }
  }

  lemma {:induction false} EraseEachKeepsMarks(s: State, rels: seq<Text>)
    ensures MarksStay(s, s.(ix := EraseEach(s.ix, rels)))
    decreases |rels|
  {
    if rels != [] {
      var x := if rels[0] in s.ix.entries then Erase(s.ix, rels[0]) else s.ix;
      EraseEachKeepsMarks(s.(ix := x), rels[1..]);
    }
  }

  lemma {:induction false} EraseTreesKeepsMarks(s: State, rels: seq<Text>)
    ensures MarksStay(s, s.(ix := EraseTreeEach(s.ix, rels)))
    decreases |rels|
  {
    if rels != [] { EraseTreesKeepsMarks(s.(ix := EraseTree(s.ix, rels[0])), rels[1..]); }
  }

  lemma {:induction false} WalkAgainKeepsMarks(s: State, changed: seq<(Text, int)>)
    ensures MarksStay(s, WalkAgain(s, changed))
    decreases |changed|
  {
    if changed != [] { WalkAgainKeepsMarks(WalkOne(s, changed[0].0, changed[0].1), changed[1..]); }
  }

  lemma StepKeepsMarks(sys: System, step: Step)
    requires Inv(sys) && Enabled(sys, step) && Marked(sys.s)
    ensures Marked(Next(sys, step).s)
  {
    match step
    case WalkBatch(batch) => BatchKeepsMarks(sys.s, sys.walker.dir, batch);
    case AskBatch(batch) => BatchKeepsMarks(sys.s, sys.asker.dir, batch);
    case WalkEnd(o) => EndKeepsMarks(sys.s, sys.walker.dir, sys.walker.gen, sys.walker.start, o);
    case AskEnd(o) => EndKeepsMarks(sys.s, sys.asker.dir, sys.asker.gen, sys.asker.start, o);
    case SampleDone(read) => ReadKeepsMarks(sys.s, sys.sampler.rel, sys.sampler.gen, sys.sampler.request.Some?, read);
    case AskFile(rel, st) => FileKeepsMarks(sys.s, rel, st);
    case AskRecheck(gone, changed) =>
      EraseTreesKeepsMarks(sys.s, gone);
      WalkAgainKeepsMarks(sys.s.(ix := EraseTreeEach(sys.s.ix, gone)), changed);
    case AskRelist(gone, changed) =>
      EraseEachKeepsGood(sys.s, gone, ALL);
      EraseEachKeepsMarks(sys.s, gone);
      EachKeepsMarks(sys.s.(ix := EraseEach(sys.s.ix, gone)), changed);
    case _ =>
  }

  lemma {:induction false} MarksInEveryRun(sys: System, steps: seq<Step>)
    requires Runs(sys, steps) && Marked(sys.s)
    ensures Marked(After(sys, steps).s)
    decreases |steps|
  {
    if steps != [] {
      StepKeepsMarks(sys, steps[0]);
      MarksInEveryRun(Next(sys, steps[0]), steps[1..]);
    }
  }
}
