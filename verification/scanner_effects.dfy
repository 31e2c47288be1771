/** What the sections of the scanner do, one by one, by the names, numbers and bytes themselves. */
module ScannerEffects {
  import opened Bytes
  import opened PathOrder
  import opened ScannerState
  import opened ScannerBooks
  import opened ScannerTrees
  import opened ScannerRun
  import opened ScannerTheorems
  import opened ScannerListings

  // ---- The end of a listing

  /** A directory that may not be listed is noted as such, or the index is full; one gone through whole is not. */
  lemma EndIsNoted(s: State, dir: Text, gen: nat, start: nat, o: Outcome)
    requires Books(s.ix)
    ensures var t := EndListing(s, dir, gen, start, o);
      && (gen == s.gen && o.Denied? ==> dir in t.ix.unreadable || (t.flags.indexFull && t.flags.limitHit))
      && (gen == s.gen && o.Whole? ==> dir !in t.ix.unreadable)
      && (gen != s.gen || o.Partial? ==> t == s)
  {
  }

  lemma WalkEndIsNoted(sys: System, o: Outcome)
    requires Inv(sys) && Enabled(sys, WalkEnd(o)) && sys.walker.gen == sys.s.gen
    ensures var t := Next(sys, WalkEnd(o)).s;
      && (o.Denied? ==> sys.walker.dir in t.ix.unreadable || (t.flags.indexFull && t.flags.limitHit))
      && (o.Whole? ==> sys.walker.dir !in t.ix.unreadable)
      && (o.Partial? ==> t == sys.s)
  {
    EndIsNoted(sys.s, sys.walker.dir, sys.walker.gen, sys.walker.start, o);
  }

  // ---- Refresh

  /** After a refresh the scan is as at the start, but for the generation and the stamp; and nobody waits. */
  lemma RefreshStartsOver(sys: System)
    requires Inv(sys) && Enabled(sys, Refresh)
    ensures var next := Next(sys, Refresh);
      && next.s == Initial(sys.s.ix.lim).s.(gen := sys.s.gen + 1, stamp := sys.s.stamp)
      && next == sys.(s := next.s, desk := sys.desk.(requests := []))
  {
  }

  lemma StartsWithTheRoot(lim: Limits)
    ensures var sys := Initial(lim);
      && sys.s.dirs == [[]] && sys.s.ix.entries == map[] && sys.s.ix.bytes == 0 && sys.s.files == []
      && sys.s.flags == Flags(false, false, false, false) && sys.desk.requests == [] && sys.desk.current.None?
      && Marked(sys.s)
  {
  }

  // ---- What was read

  /** A request that was read has its answer: the preview, or the words of the error. */
  lemma RequestIsAnswered(sys: System, read: Read)
    requires Inv(sys) && Enabled(sys, SampleDone(read)) && !sys.stopping && sys.sampler.request.Some?
    ensures var desk, id := Next(sys, SampleDone(read)).desk, sys.sampler.request.value.id;
      && id in desk.answers && desk.current.None?
      && desk.answers[id] == match read case Opened(_, p) => p.json case Gone(why) => why case OpenFailed(why) => why
  {
  }

  /** What a preview is charged. */
  function PreviewCharged(lim: Limits, p: Preview): nat {
    (lim.stringBytes + |p.json| + 33) + (lim.stringBytes + |p.fields| + 33) + lim.lruBytes + 48
  }

  /** What a request read is kept if it fits beside what is no preview, and is then the last to be evicted. */
  lemma RequestedIsKept(sys: System, st: Stat, p: Preview)
    requires Inv(sys) && Enabled(sys, SampleDone(Opened(st, p))) && !sys.stopping
    requires sys.sampler.request.Some? && sys.sampler.gen == sys.s.gen
    ensures var rel, t := sys.sampler.rel, MergeFile(sys.s, sys.sampler.rel, st).0;
      var next := Next(sys, SampleDone(Opened(st, p))).s;
      && (rel in next.ix.entries <==> rel in t.ix.entries)
      && (rel in next.ix.entries ==>
            && next.ix.entries[rel].stat == st
            && if t.ix.bytes - t.ix.previewBytes + PreviewCharged(t.ix.lim, p) <= t.ix.lim.maxMemory then
                 && next.ix.entries[rel].held.Some? && next.ix.entries[rel].held.value.preview == p
                 && next.ix.entries[rel].held.value.madeFrom == st && next.ix.lru != [] && next.ix.lru[0] == rel
               else next.ix.entries[rel].held.None? && next.flags.samplingStopped)
  {
    var rel := sys.sampler.rel;
    MergeFileKeepsGood(sys.s, rel, st, ALL);
    MergedStat(sys.s, rel, st);
    var (t, merged) := MergeFile(sys.s, rel, st);
    if merged { RequestedStays(t, rel, st, p); }
  }

  lemma RequestedStays(t: State, rel: Text, st: Stat, p: Preview)
    requires Books(t.ix) && rel in t.ix.entries && t.ix.entries[rel].stat == st
    ensures var next := StoreRequested(t, rel, st, p);
      && rel in next.ix.entries && next.ix.entries[rel].stat == st
      && if t.ix.bytes - t.ix.previewBytes + PreviewCharged(t.ix.lim, p) <= t.ix.lim.maxMemory then
           && next.ix.entries[rel].held.Some? && next.ix.entries[rel].held.value.preview == p
           && next.ix.entries[rel].held.value.madeFrom == st && next.ix.lru != [] && next.ix.lru[0] == rel
         else next.ix.entries[rel].held.None? && next.flags.samplingStopped
  {
    ForgetPreviewKeepsBooks(t.ix, rel);
    var u := t.(ix := ForgetPreview(t.ix, rel));
    assert u.ix.bytes - u.ix.previewBytes == t.ix.bytes - t.ix.previewBytes;
    RequestedComesFirst(u, rel, st, p);
    HoldKeepsStat(u, rel, st, p);
  }

  lemma HoldKeepsStat(s: State, rel: Text, st: Stat, p: Preview)
    requires Books(s.ix) && rel in s.ix.entries && s.ix.entries[rel].held.None?
    ensures var t := HoldRequested(s, rel, st, p);
      && rel in t.ix.entries && t.ix.entries[rel].stat == s.ix.entries[rel].stat
      && (s.ix.bytes - s.ix.previewBytes + PreviewCharged(s.ix.lim, p) > s.ix.lim.maxMemory ==>
            t.ix.entries[rel].held.None?)
  {
  }

  /** What the sampler came across is kept if there is room as it is, and sampling stops if there is none. */
  lemma SampledIsKept(sys: System, st: Stat, p: Preview)
    requires Inv(sys) && Enabled(sys, SampleDone(Opened(st, p))) && !sys.stopping
    requires sys.sampler.request.None? && sys.sampler.gen == sys.s.gen
    requires sys.sampler.rel in sys.s.ix.entries && !sys.s.ix.entries[sys.sampler.rel].sampled
    ensures var rel, x, next := sys.sampler.rel, sys.s.ix, Next(sys, SampleDone(Opened(st, p))).s;
      if x.bytes + PreviewCharged(x.lim, p) <= x.lim.maxMemory then
        && rel in next.ix.entries && next.ix.entries[rel].stat == st && next.ix.entries[rel].sampled
        && next.ix.entries[rel].held.Some? && next.ix.entries[rel].held.value.preview == p
        && next.ix.lru == x.lru + [rel]
      else next == sys.s.(flags := next.flags, files := []) && next.flags.samplingStopped && next.flags.limitHit
  {
    assert EntryOk(sys.s.ix.lim, sys.s.ix.entries[sys.sampler.rel]);
  }

  /** A file that is gone when it is sampled leaves the index, and nothing else does. */
  lemma GoneIsErased(sys: System, why: Text)
    requires Inv(sys) && Enabled(sys, SampleDone(Gone(why))) && !sys.stopping
    requires sys.sampler.request.None? && sys.sampler.gen == sys.s.gen
    ensures var x, y := sys.s.ix, Next(sys, SampleDone(Gone(why))).s.ix;
      && y.entries == x.entries - {sys.sampler.rel} && y.knownDirs == x.knownDirs && y.unreadable == x.unreadable
  {
    var rel := sys.sampler.rel;
    if rel !in sys.s.ix.entries { assert sys.s.ix.entries - {rel} == sys.s.ix.entries; }
  }

  // ---- What requests do

  /** A file with a preview to have and none held is asked for: its request waits, is being read, or 64 others wait. */
  lemma FileIsAskedFor(sys: System, rel: Text, st: Stat)
    requires Inv(sys) && Enabled(sys, AskFile(rel, st)) && !FormatOf(rel).NoFormat?
    ensures var next := Next(sys, AskFile(rel, st));
      || (rel in next.s.ix.entries && next.s.ix.entries[rel].held.Some? && next.desk == sys.desk)
      || (exists i :: 0 <= i < |next.desk.requests| && next.desk.requests[i].rel == rel)
      || (next.desk.current.Some? && next.desk.current.value.rel == rel)
      || |next.desk.requests| >= 64
  {
    AnswerAsks(sys, MergeFile(sys.s, rel, st).0, rel);
  }

  lemma AnswerAsks(sys: System, t: State, rel: Text)
    requires !FormatOf(rel).NoFormat?
    ensures var next := AnswerFrom(sys, t, rel);
      || (rel in next.s.ix.entries && next.s.ix.entries[rel].held.Some? && next.desk == sys.desk)
      || (exists i :: 0 <= i < |next.desk.requests| && next.desk.requests[i].rel == rel)
      || (next.desk.current.Some? && next.desk.current.value.rel == rel)
      || |next.desk.requests| >= 64
  {
    var desk := RequestFor(sys.desk, rel);
    if desk != sys.desk { assert desk.requests[|sys.desk.requests|].rel == rel; }
  }

  /** A file without one is not. */
  lemma OthersAreNotAskedFor(sys: System, rel: Text, st: Stat)
    requires Inv(sys) && Enabled(sys, AskFile(rel, st)) && FormatOf(rel).NoFormat?
    ensures Next(sys, AskFile(rel, st)).desk == sys.desk
  {
  }

  /** A name, and what starts with it and a slash. */
  predicate InTreeOf(rel: Text, k: Text) { k == rel || (|k| > |rel| && k[..|rel|] == rel && k[|rel|] == 47) }

  lemma TreeIs(rel: Text, k: Text)
    ensures InTree(rel, k) <==> InTreeOf(rel, k)
  {
    if rel + [47] <= k { assert k[..|rel|] == (rel + [47])[..|rel|]; }
    if |k| > |rel| && k[..|rel|] == rel && k[|rel|] == 47 { assert k[..|rel| + 1] == rel + [47]; }
  }

  /** What is missing goes, with all that was under it, and nothing else. */
  lemma MissingIsErased(sys: System, rel: Text)
    requires Inv(sys) && Enabled(sys, AskErase(rel))
    ensures var x, y := sys.s.ix, Next(sys, AskErase(rel)).s.ix;
      && (forall k :: k in y.entries <==> k in x.entries && !InTreeOf(rel, k))
      && (forall k :: k in y.entries ==> y.entries[k] == x.entries[k])
      && (forall k :: k in y.knownDirs <==> k in x.knownDirs && !InTreeOf(rel, k))
      && (forall k :: k in y.knownDirs ==> y.knownDirs[k] == x.knownDirs[k])
      && (forall k :: k in y.unreadable <==> k in x.unreadable && !InTreeOf(rel, k))
  {
    TreeGoes(sys.s.ix, rel);
  }

  lemma TreeGoes(x: Index, rel: Text)
    ensures var y := EraseTree(x, rel);
      && (forall k :: k in y.entries <==> k in x.entries && !InTreeOf(rel, k))
      && (forall k :: k in y.entries ==> y.entries[k] == x.entries[k])
      && (forall k :: k in y.knownDirs <==> k in x.knownDirs && !InTreeOf(rel, k))
      && (forall k :: k in y.knownDirs ==> y.knownDirs[k] == x.knownDirs[k])
      && (forall k :: k in y.unreadable <==> k in x.unreadable && !InTreeOf(rel, k))
  {
    forall k { TreeIs(rel, k); }
  }

  ghost predicate InTreeOfOne(rels: seq<Text>, k: Text) { exists i :: 0 <= i < |rels| && InTreeOf(rels[i], k) }

  /** The directories a request found gone: their trees leave the index. */
  lemma {:induction false} TreesGo(x: Index, rels: seq<Text>)
    ensures var y := EraseTreeEach(x, rels);
      && (forall k :: k in y.entries <==> k in x.entries && !InTreeOfOne(rels, k))
      && (forall k :: k in y.entries ==> y.entries[k] == x.entries[k])
      && (forall k :: k in y.knownDirs <==> k in x.knownDirs && !InTreeOfOne(rels, k))
      && (forall k :: k in y.knownDirs ==> y.knownDirs[k] == x.knownDirs[k])
    decreases |rels|
  {
    if rels != [] {
      TreeGoes(x, rels[0]);
      TreesGo(EraseTree(x, rels[0]), rels[1..]);
      forall k
        ensures InTreeOfOne(rels, k) <==> InTreeOf(rels[0], k) || InTreeOfOne(rels[1..], k)
      {
        OneTreeMore(rels, k);
      }
    }
  }

  lemma OneTreeMore(rels: seq<Text>, k: Text)
    requires rels != []
    ensures InTreeOfOne(rels, k) <==> InTreeOf(rels[0], k) || InTreeOfOne(rels[1..], k)
  {
    var rest := rels[1..];
    if i :| 0 <= i < |rels| && InTreeOf(rels[i], k) { assert i > 0 ==> rest[i - 1] == rels[i]; }
    if i :| 0 <= i < |rest| && InTreeOf(rest[i], k) { assert rels[i + 1] == rest[i]; }
  }

  /** The files a request found gone leave the index, and the others stay as they are. */
  lemma {:induction false} FilesGo(x: Index, rels: seq<Text>)
    ensures var y := EraseEach(x, rels);
      && (forall k :: k in y.entries <==> k in x.entries && k !in rels)
      && (forall k :: k in y.entries ==> y.entries[k] == x.entries[k]) && y.knownDirs == x.knownDirs
    decreases |rels|
  {
    if rels != [] {
      assert rels == [rels[0]] + rels[1..];
      FilesGo(if rels[0] in x.entries then Erase(x, rels[0]) else x, rels[1..]);
    }
  }

  /** The files it found changed are in the index as they are now, or had no room. */
  lemma {:induction false} ChangedAreMerged(s: State, changed: seq<(Text, Stat)>, i: nat)
    requires Good(s, ALL) && i < |changed| && forall j, k :: 0 <= j < k < |changed| ==> changed[j].0 != changed[k].0
    ensures var t, rel := MergeEach(s, changed), changed[i].0;
      if rel in t.ix.entries then t.ix.entries[rel].stat == changed[i].1 && t.ix.entries[rel].seen == s.stamp
      else t.flags.indexFull && t.flags.limitHit
    decreases |changed|
  {
    var t := MergeFile(s, changed[0].0, changed[0].1).0;
    MergeFileKeepsGood(s, changed[0].0, changed[0].1, ALL);
    FileIsMerged(s, changed[0].0, changed[0].1);
    if i > 0 {
      ChangedAreMerged(t, changed[1..], i - 1);
    } else {
      assert forall j :: 0 <= j < |changed[1..]| ==> changed[1..][j].0 == changed[j + 1].0;
      OthersLeaveIt(t, changed[1..], changed[0].0);
    }
  }

  lemma {:induction false} OthersLeaveIt(s: State, changed: seq<(Text, Stat)>, rel: Text)
    requires Good(s, ALL) && forall j :: 0 <= j < |changed| ==> changed[j].0 != rel
    ensures var t := MergeEach(s, changed); FlagsStay(s, t) && (rel in t.ix.entries <==> rel in s.ix.entries)
    ensures var t := MergeEach(s, changed);
      rel in s.ix.entries ==>
        t.ix.entries[rel].stat == s.ix.entries[rel].stat && t.ix.entries[rel].seen == s.ix.entries[rel].seen
    decreases |changed|
  {
    if changed != [] {
      MergeFileKeepsGood(s, changed[0].0, changed[0].1, ALL);
      FileIsMerged(s, changed[0].0, changed[0].1);
      OthersLeaveIt(MergeFile(s, changed[0].0, changed[0].1).0, changed[1..], rel);
    }
  }

  /** The directories it found changed have their new time, and are queued unless the index is full. */
  lemma {:induction false} ChangedAreWalked(s: State, changed: seq<(Text, int)>, i: nat)
    requires i < |changed| && forall j, k :: 0 <= j < k < |changed| ==> changed[j].0 != changed[k].0
    ensures var t, rel := WalkAgain(s, changed), changed[i].0;
      && (rel in t.ix.knownDirs <==> rel in s.ix.knownDirs)
      && (rel in s.ix.knownDirs ==>
            && t.ix.knownDirs[rel] == KnownDir(changed[i].1, s.ix.knownDirs[rel].seen)
            && (rel in t.dirs || s.flags.indexFull))
    decreases |changed|
  {
    var t := WalkOne(s, changed[0].0, changed[0].1);
    if i > 0 {
      ChangedAreWalked(t, changed[1..], i - 1);
    } else {
      assert forall j :: 0 <= j < |changed[1..]| ==> changed[1..][j].0 == changed[j + 1].0;
      WalksLeaveIt(t, changed[1..], changed[0].0);
    }
  }

  lemma {:induction false} WalksLeaveIt(s: State, changed: seq<(Text, int)>, rel: Text)
    requires forall j :: 0 <= j < |changed| ==> changed[j].0 != rel
    ensures var t := WalkAgain(s, changed);
      && t.ix == s.ix.(knownDirs := t.ix.knownDirs) && (rel in t.ix.knownDirs <==> rel in s.ix.knownDirs)
      && (rel in s.ix.knownDirs ==> t.ix.knownDirs[rel] == s.ix.knownDirs[rel]) && (rel in s.dirs ==> rel in t.dirs)
    decreases |changed|
  {
    if changed != [] { WalksLeaveIt(WalkOne(s, changed[0].0, changed[0].1), changed[1..], rel); }
  }

  /** What a request finds about known directories: gone trees leave, changed ones are walked again. */
  lemma RecheckDoes(sys: System, gone: seq<Text>, changed: seq<(Text, int)>, i: nat)
    requires Inv(sys) && Enabled(sys, AskRecheck(gone, changed)) && i < |changed|
    requires forall j, k :: 0 <= j < k < |changed| ==> changed[j].0 != changed[k].0
    ensures var x, t, rel := sys.s.ix, Next(sys, AskRecheck(gone, changed)).s, changed[i].0;
      && (forall k :: k in t.ix.entries <==> k in x.entries && !InTreeOfOne(gone, k))
      && (rel in t.ix.knownDirs <==> rel in x.knownDirs && !InTreeOfOne(gone, rel))
      && (rel in t.ix.knownDirs ==>
            t.ix.knownDirs[rel].mtime == changed[i].1 && (rel in t.dirs || sys.s.flags.indexFull))
  {
    var s := sys.s.(ix := EraseTreeEach(sys.s.ix, gone));
    TreesGo(sys.s.ix, gone);
    ChangedAreWalked(s, changed, i);
    WalksLeaveFiles(s, changed);
  }

  lemma {:induction false} WalksLeaveFiles(s: State, changed: seq<(Text, int)>)
    ensures WalkAgain(s, changed).ix.entries == s.ix.entries
    decreases |changed|
  {
    if changed != [] { WalksLeaveFiles(WalkOne(s, changed[0].0, changed[0].1), changed[1..]); }
  }

  /** What it finds about the files it shows: gone ones leave, changed ones are as they are now, or had no room. */
  lemma RelistDoes(sys: System, gone: seq<Text>, changed: seq<(Text, Stat)>, i: nat)
    requires Inv(sys) && Enabled(sys, AskRelist(gone, changed)) && i < |changed|
    requires forall j, k :: 0 <= j < k < |changed| ==> changed[j].0 != changed[k].0
    ensures var t, rel := Next(sys, AskRelist(gone, changed)).s, changed[i].0;
      if rel in t.ix.entries then t.ix.entries[rel].stat == changed[i].1
      else t.flags.indexFull && t.flags.limitHit
  {
    EraseEachKeepsGood(sys.s, gone, ALL);
    ChangedAreMerged(sys.s.(ix := EraseEach(sys.s.ix, gone)), changed, i);
  }

  lemma RelistErases(sys: System, gone: seq<Text>, changed: seq<(Text, Stat)>, rel: Text)
    requires Inv(sys) && Enabled(sys, AskRelist(gone, changed))
    requires rel in gone && forall j :: 0 <= j < |changed| ==> changed[j].0 != rel
    ensures rel !in Next(sys, AskRelist(gone, changed)).s.ix.entries
  {
    EraseEachKeepsGood(sys.s, gone, ALL);
    FilesGo(sys.s.ix, gone);
    OthersLeaveIt(sys.s.(ix := EraseEach(sys.s.ix, gone)), changed, rel);
  }

  // ---- What comes first

  /** The walker takes the first directory of its queue, the sampler the first request, and a file if there is none. */
  lemma FirstComesFirst(sys: System)
    requires Inv(sys)
    ensures Enabled(sys, WalkTake) ==>
      && Next(sys, WalkTake).walker == Taken(sys.s.dirs[0], sys.s.gen)
      && Next(sys, WalkTake).s == sys.s.(dirs := sys.s.dirs[1..])
    ensures Enabled(sys, SampleTakeRequest) ==>
      var r, next := sys.desk.requests[0], Next(sys, SampleTakeRequest);
      && next.sampler == Reading(r.rel, sys.s.gen, Some(r)) && next.s == sys.s
      && next.desk == sys.desk.(requests := sys.desk.requests[1..], current := Some(r))
    ensures Enabled(sys, SampleTakeFile) ==>
      var rel, next := sys.s.files[0], Next(sys, SampleTakeFile);
      && sys.desk.requests == [] && next.s == sys.s.(files := sys.s.files[1..])
      && next.sampler == if rel in sys.s.ix.entries && !sys.s.ix.entries[rel].sampled
                         then Reading(rel, sys.s.gen, None) else Free
  {
  }

  /** When the walker fails the walk and sampling end, as at the limit; when the sampler does, sampling ends. */
  lemma FailuresStop(sys: System)
    requires Inv(sys)
    ensures var next := Next(sys, WalkFail);
      && next.s.flags == Flags(true, true, true, sys.s.flags.tooDeep) && next.s.dirs == [] && next.s.files == []
      && next.walker.AtRest? && next.s.ix == sys.s.ix && next.desk == sys.desk
    ensures var next := Next(sys, SampleFail);
      && next.s.flags == sys.s.flags.(limitHit := true, samplingStopped := true) && next.s.files == []
      && next.s.dirs == sys.s.dirs && next.s.ix == sys.s.ix
      && next.sampler.Free? && next.desk == sys.desk.(current := None)
  {
  }

  /** Nothing that was read is stored or answered once the scanner is to stop. */
  lemma StoppingStoresNothing(sys: System, read: Read)
    requires Inv(sys) && Enabled(sys, SampleDone(read)) && sys.stopping
    ensures Next(sys, SampleDone(read)) == sys.(sampler := Free)
  {
  }

  // ---- The formats of files

  function Lowered(t: Text): Text
  {
    if t == [] then [] else Lowered(t[..|t| - 1]) + [if 65 <= t[|t| - 1] <= 90 then t[|t| - 1] + 32 else t[|t| - 1]]
  }

  lemma {:induction false} ExtensionIs(stem: Text, ext: Text)
    requires 46 !in ext && 47 !in ext
    ensures Extension(stem + [46] + ext) == Some(Lowered(ext))
    decreases |ext|
  {
    var name := stem + [46] + ext;
    if ext == [] {
      assert name == stem + [46];
    } else {
      var last := |ext| - 1;
      assert name[..|name| - 1] == stem + [46] + ext[..last] && name[|name| - 1] == ext[last];
      ExtensionIs(stem, ext[..last]);
    }
  }

  lemma {:induction false} NoExtension(name: Text)
    requires forall i :: 0 <= i < |name| && name[i] == 46 ==> 47 in name[i..]
    ensures Extension(name).None?
  {
    if name != [] {
      var last := |name| - 1;
      if name[last] != 47 {
        assert name[last..] == [name[last]];
        assert name[last] != 46;
        forall i | 0 <= i < last && name[i] == 46
          ensures 47 in name[..last][i..]
        {
          assert name[i..] == name[..last][i..] + [name[last]];
        }
        NoExtension(name[..last]);
      }
    }
  }

  /** The format is by what follows the last dot, in any case; none if no dot follows the last slash. */
  lemma FormatsAre(stem: Text, ext: Text)
    requires 46 !in ext && 47 !in ext
    ensures FormatOf(stem + [46] + ext) == (
      var e := Lowered(ext);
      if e == [120, 109, 108] || e == [120, 104, 116, 109, 108] then Xml
      else if e == [106, 115, 111, 110] || e == [106, 115, 111, 110, 108] ||
              e == [110, 100, 106, 115, 111, 110] || e == [103, 101, 111, 106, 115, 111, 110] then JsonText
      else if e == [99, 115, 118] then Csv
      else if e == [104, 116, 109, 108] || e == [104, 116, 109] then Html
      else NoFormat)
  {
    ExtensionIs(stem, ext);
  }

  lemma OthersHaveNone(name: Text)
    requires forall i :: 0 <= i < |name| && name[i] == 46 ==> 47 in name[i..]
    ensures FormatOf(name) == NoFormat
  {
    NoExtension(name);
  }

  // ---- What the status says

  predicate IsWork(step: Step) {
    step.WalkTake? || step.WalkStart? || step.WalkBatch? || step.WalkEnd? || step.WalkRest? ||
    step.SampleTakeRequest? || step.SampleTakeFile? || step.SampleDone?
  }

  /** "running" means that the walker or the sampler has a step to take, and the other two that neither has. */
  lemma RunningIsWork(sys: System)
    requires Inv(sys) && !sys.stopping
    ensures StatusOf(sys).Running? <==> exists step :: IsWork(step) && Enabled(sys, step)
    ensures StatusOf(sys).MemoryLimit? <==> !StatusOf(sys).Running? && sys.s.flags.limitHit
  {
    if !Idle(sys) {
      var step := if sys.s.dirs != [] && sys.walker.AtRest? then WalkTake
                  else match sys.walker
                    case Taken(_, _) => WalkStart
                    case Listing(_, _, _, _) => WalkEnd(Partial)
                    case Listed(_) => WalkRest
                    case AtRest =>
                      if sys.sampler.Reading? then SampleDone(Gone([]))
                      else if sys.desk.requests != [] then SampleTakeRequest else SampleTakeFile;
      assert IsWork(step) && Enabled(sys, step);
    }
  }
}
