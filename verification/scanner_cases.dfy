/** Runs of the scanner that end otherwise than it promises. */
module ScannerCases {
  import opened Bytes
  import opened PathOrder
  import opened ScannerState
  import opened ScannerBooks
  import opened ScannerTrees
  import opened ScannerRun
  import opened ScannerTheorems
  import opened ScannerFailures

  /** The walker lists a directory of the name in the root; a request lists the root when it is a file. */
  function DirThenFile(name: Text, dirTime: int, st: Stat): seq<Step> {
    [WalkTake, WalkStart, WalkBatch([DirEntry(name, true, Stat(0, dirTime))]), WalkEnd(Whole), WalkRest,
     AskDir([]), AskStart, AskBatch([DirEntry(name, false, st)]), AskEnd(Whole)]
  }

  lemma RunOn(sys: System, steps: seq<Step>, i: nat)
    requires i < |steps| && Runs(sys, steps[..i]) && Enabled(After(sys, steps[..i]), steps[i])
    ensures Runs(sys, steps[..i + 1]) && After(sys, steps[..i + 1]) == Next(After(sys, steps[..i]), steps[i])
  {
    RunsGoOn(sys, steps[..i], steps[i]);
    assert steps[..i] + [steps[i]] == steps[..i + 1];
  }

  /** The root has one directory, and nothing else is known. */
  ghost predicate OnlyDir(x: Index, lim: Limits, name: Text, seen: nat) {
    && x.lim == lim && x.entries == map[] && x.knownDirs.Keys == {name} && x.unreadable == {}
    && x.knownDirs[name].seen == seen && Books(x) && x.lost == 0
  }

  lemma OnlyDirBytes(x: Index, lim: Limits, name: Text, seen: nat)
    requires OnlyDir(x, lim, name, seen)
    ensures x.bytes == DirCost(lim, name) && x.previewBytes == 0
  {
    PutDir(lim, {}, name);
    assert {} + {name} == {name};
  }

  lemma NoSlashes(name: Text)
    requires SLASH !in name
    ensures Slashes(name) == 0
  {
  }

  lemma MeetDir(s: State, name: Text, dirTime: int)
    requires Good(s, ALL) && s.ix.entries == map[] && s.ix.knownDirs == map[] && s.ix.unreadable == {}
    requires s.ix.bytes == 0 && s.ix.lost == 0
    requires SLASH !in name && !s.flags.indexFull && DirCost(s.ix.lim, name) <= s.ix.lim.maxMemory
    ensures MergeBatch(s, [], [DirEntry(name, true, Stat(0, dirTime))]) == MergeDir(s, name, dirTime)
    ensures OnlyDir(MergeDir(s, name, dirTime).ix, s.ix.lim, name, s.stamp)
  {
    var batch := [DirEntry(name, true, Stat(0, dirTime))];
    NoSlashes(name);
    MergeDirKeepsGood(s, name, dirTime, ALL);
    assert batch[1..] == [];
    assert MergeBatch(MergeOne(s, [], batch[0]), [], []) == MergeOne(s, [], batch[0]);
  }

  /** A listing that met all there is leaves it there. */
  lemma DirStays(x: Index, lim: Limits, name: Text, start: nat)
    requires OnlyDir(x, lim, name, start) && SLASH !in name
    ensures OnlyDir(RemoveUnseen(ForgetUnreadable(x, []), [], start), lim, name, start)
  {
    assert GoneDirs(x, [], start) == {};
    assert TreesIn(x.knownDirs.Keys, {}) == {};
    var r := RemoveUnseen(ForgetUnreadable(x, []), [], start);
    assert r.knownDirs == x.knownDirs - {} == x.knownDirs;
    RemoveKeepsBooks(x, {}, {}, {});
    assert r.entries == map[];
    RemoveKeepsBooks(x, UnseenFiles(x, [], start) + TreesIn(x.entries.Keys, {}), TreesIn(x.knownDirs.Keys, {}),
                     TreesIn(x.unreadable, {}));
  }

  lemma MeetFile(s: State, name: Text, st: Stat, seen: nat)
    requires Good(s, ALL) && OnlyDir(s.ix, s.ix.lim, name, seen) && seen < s.stamp
    requires DirCost(s.ix.lim, name) + EntryCost(s.ix.lim, name) <= s.ix.lim.maxMemory
    ensures var t := MergeBatch(s, [], [DirEntry(name, false, st)]);
      && name in t.ix.entries && t.ix.entries[name].seen == s.stamp
      && name in t.ix.knownDirs && t.ix.knownDirs[name].seen == seen && t.ix.unreadable == {} && Good(t, ALL)
  {
    var batch := [DirEntry(name, false, st)];
    OnlyDirBytes(s.ix, s.ix.lim, name, seen);
    MergedStat(s, name, st);
    FileMergeKeepsDirs(s, name, st);
    assert batch[1..] == [];
    assert MergeBatch(MergeOne(s, [], batch[0]), [], []) == MergeOne(s, [], batch[0]);
  }

  lemma TouchKeepsDirs(s: State, name: Text, st: Stat)
    requires name in s.ix.entries
    ensures Touch(s, name, st).ix.knownDirs == s.ix.knownDirs && Touch(s, name, st).ix.unreadable == s.ix.unreadable
  {
  }

  lemma FileMergeKeepsDirs(s: State, name: Text, st: Stat)
    requires Books(s.ix)
    ensures var t := MergeFile(s, name, st).0; t.ix.knownDirs == s.ix.knownDirs && t.ix.unreadable == s.ix.unreadable
    ensures name !in s.ix.entries &&
            s.ix.bytes - s.ix.previewBytes + EntryCost(s.ix.lim, name) <= s.ix.lim.maxMemory ==>
      MergeFile(s, name, st).1
  {
    if name in s.ix.entries {
      TouchKeepsDirs(s, name, st);
    } else {
      var (t, room) := RoomInIndex(s, EntryCost(s.ix.lim, name));
      if room { TouchKeepsDirs(t.(ix := AddEntry(t.ix, name, st)), name, st); }
    }
  }

  lemma FileIsLost(s: State, name: Text, start: nat)
    requires Good(s, ALL) && SLASH !in name && name in s.ix.entries && s.ix.entries[name].seen >= start
    requires name in s.ix.knownDirs && s.ix.knownDirs[name].seen < start && s.ix.unreadable == {}
    ensures name !in RemoveUnseen(ForgetUnreadable(s.ix, []), [], start).entries
  {
    assert name[0..] == name && Direct(Under([]), name);
    MetFileStays(s.ix, [], start, name);
  }

  /** The walker's listing meets the directory. */
  lemma DirIsMet(lim: Limits, name: Text, dirTime: int, st: Stat)
    requires SLASH !in name && DirCost(lim, name) <= lim.maxMemory
    ensures var steps := DirThenFile(name, dirTime, st);
      && Runs(Initial(lim), steps[..3])
      && var sys := After(Initial(lim), steps[..3]);
      && sys.walker == Listing([], sys.s.gen, 1, false) && sys.asker.AtRest? && !sys.stopping && sys.s.stamp == 1
      && OnlyDir(sys.s.ix, lim, name, 1)
  {
    var steps, init := DirThenFile(name, dirTime, st), Initial(lim);
    RootIsListed(lim);
    MeetDir(After(init, BEGUN).s, name, dirTime);
    RunsGoOn(init, BEGUN, steps[2]);
    assert steps[..3] == BEGUN + [steps[2]];
  }

  lemma WholeListing(sys: System, name: Text)
    requires Inv(sys) && sys.walker == Listing([], sys.s.gen, 1, false) && SLASH !in name
    requires OnlyDir(sys.s.ix, sys.s.ix.lim, name, 1)
    ensures var t := Next(sys, WalkEnd(Whole));
      OnlyDir(t.s.ix, sys.s.ix.lim, name, 1) && t == sys.(s := sys.s.(ix := t.s.ix), walker := Listed(sys.s.gen))
  {
    DirStays(sys.s.ix, sys.s.ix.lim, name, 1);
  }

  /** Up to the end of the walker's listing: the directory is known, and nothing else. */
  lemma DirIsKnown(lim: Limits, name: Text, dirTime: int, st: Stat)
    requires SLASH !in name && DirCost(lim, name) <= lim.maxMemory
    ensures var steps := DirThenFile(name, dirTime, st);
      && Runs(Initial(lim), steps[..5])
      && var sys := After(Initial(lim), steps[..5]);
      && sys.walker.AtRest? && sys.asker.AtRest? && !sys.stopping && sys.s.stamp == 1
      && OnlyDir(sys.s.ix, lim, name, 1)
  {
    var steps, init := DirThenFile(name, dirTime, st), Initial(lim);
    DirIsMet(lim, name, dirTime, st);
    WholeListing(After(init, steps[..3]), name);
    RunOn(init, steps, 3);
    RunOn(init, steps, 4);
  }

  /** A request lists the root, and meets the file. */
  ghost predicate HasMet(sys: System, name: Text) {
    && Inv(sys) && sys.asker == Listing([], sys.s.gen, 2, false) && sys.s.ix.unreadable == {}
    && name in sys.s.ix.entries && sys.s.ix.entries[name].seen == 2
    && name in sys.s.ix.knownDirs && sys.s.ix.knownDirs[name].seen == 1
  }

  lemma FileIsMet(sys: System, name: Text, st: Stat)
    requires Inv(sys) && !sys.stopping && sys.asker == Listing([], sys.s.gen, 2, false) && sys.s.stamp == 2
    requires OnlyDir(sys.s.ix, sys.s.ix.lim, name, 1)
    requires DirCost(sys.s.ix.lim, name) + EntryCost(sys.s.ix.lim, name) <= sys.s.ix.lim.maxMemory
    ensures HasMet(Next(sys, AskBatch([DirEntry(name, false, st)])), name)
  {
    MeetFile(sys.s, name, st, 1);
    StepKeepsInv(sys, AskBatch([DirEntry(name, false, st)]));
  }

  lemma LostAtTheEnd(sys: System, name: Text)
    requires HasMet(sys, name) && SLASH !in name
    ensures name !in Next(sys, AskEnd(Whole)).s.ix.entries
  {
    FileIsLost(sys.s, name, 2);
  }

  lemma RequestMeetsFile(lim: Limits, name: Text, dirTime: int, st: Stat)
    requires SLASH !in name && DirCost(lim, name) + EntryCost(lim, name) <= lim.maxMemory
    ensures var steps := DirThenFile(name, dirTime, st);
      Runs(Initial(lim), steps[..8]) && HasMet(After(Initial(lim), steps[..8]), name)
  {
    var steps, init := DirThenFile(name, dirTime, st), Initial(lim);
    RequestLists(lim, name, dirTime, st);
    FileIsMet(After(init, steps[..7]), name, st);
    RunOn(init, steps, 7);
  }

  lemma RequestLists(lim: Limits, name: Text, dirTime: int, st: Stat)
    requires SLASH !in name && DirCost(lim, name) <= lim.maxMemory
    ensures var steps := DirThenFile(name, dirTime, st);
      && Runs(Initial(lim), steps[..7])
      && var sys := After(Initial(lim), steps[..7]);
      && sys.asker == Listing([], sys.s.gen, 2, false) && !sys.stopping && sys.s.stamp == 2
      && OnlyDir(sys.s.ix, lim, name, 1)
  {
    var steps, init := DirThenFile(name, dirTime, st), Initial(lim);
    DirIsKnown(lim, name, dirTime, st);
    RunOn(init, steps, 5);
    RunOn(init, steps, 6);
  }

  /**
    * In this run of the code the file is in the index, with the mark of the listing that met it, until that
    * listing ends whole; and then it is not.
    */
  lemma MetFileCanGo(lim: Limits, name: Text, dirTime: int, st: Stat)
    requires SLASH !in name && DirCost(lim, name) + EntryCost(lim, name) <= lim.maxMemory
    ensures var steps := DirThenFile(name, dirTime, st);
      && Runs(Initial(lim), steps[..8]) && Runs(Initial(lim), steps)
      && HasMet(After(Initial(lim), steps[..8]), name)
      && name !in After(Initial(lim), steps).s.ix.entries
  {
    RequestMeetsFile(lim, name, dirTime, st);
    MetFileGoes(Initial(lim), DirThenFile(name, dirTime, st)[..8], name);
    assert DirThenFile(name, dirTime, st)[..8] + [AskEnd(Whole)] == DirThenFile(name, dirTime, st);
  }

  lemma MetFileGoes(init: System, steps: seq<Step>, name: Text)
    requires SLASH !in name && Runs(init, steps) && HasMet(After(init, steps), name)
    ensures Runs(init, steps + [AskEnd(Whole)]) && name !in After(init, steps + [AskEnd(Whole)]).s.ix.entries
  {
    LostAtTheEnd(After(init, steps), name);
    RunsGoOn(init, steps, AskEnd(Whole));
  }

  // ---- Memory runs out inside a section

  /** The walker has begun to list the root. */
  const BEGUN: seq<Step> := [WalkTake, WalkStart]

  lemma RootIsListed(lim: Limits)
    ensures Runs(Initial(lim), BEGUN)
    ensures var sys := After(Initial(lim), BEGUN);
      && sys.walker == Listing([], 1, 1, false) && sys.s == Initial(lim).s.(dirs := [], stamp := 1)
      && sys == Initial(lim).(s := sys.s, walker := sys.walker)
  {
    var init := Initial(lim);
    InitialInv(lim);
    assert BEGUN[..0] == [] && BEGUN[..2] == BEGUN;
    RunOn(init, BEGUN, 0);
    RunOn(init, BEGUN, 1);
  }

  /** The root cannot be listed, and memory runs out as that is noted: charged is what is not there. */
  lemma LedgerCanBeOff(lim: Limits)
    requires DirCost(lim, []) <= lim.maxMemory
    ensures Runs(Initial(lim), BEGUN)
    ensures var sys := After(Initial(lim), BEGUN);
      var turn := Fails(TheWalker, NoteDir([]));
      && Good(sys.s, ALL) && CanTurn(sys, turn)
      && var x := Turned(sys, turn).s.ix;
      && x.entries == map[] && x.knownDirs == map[] && x.unreadable == {} && x.bytes == DirCost(lim, []) > 0
  {
    RootIsListed(lim);
    var sys := After(Initial(lim), BEGUN);
    RoomWithoutEviction(sys.s, DirCost(lim, []));
  }

  /** A file is found, and taken to be sampled. */
  function InHand(name: Text, st: Stat): seq<Step> {
    BEGUN + [WalkBatch([DirEntry(name, false, st)]), SampleTakeFile]
  }

  lemma FileIsFound(lim: Limits, name: Text, st: Stat)
    requires !FormatOf(name).NoFormat? && EntryCost(lim, name) <= lim.maxMemory
    ensures var steps := InHand(name, st);
      && Runs(Initial(lim), steps[..3])
      && var sys := After(Initial(lim), steps[..3]);
      && !sys.stopping && sys.sampler.Free? && sys.desk.requests == [] && sys.s.files == [name] && sys.s.ix.lim == lim
      && sys.s.ix.entries.Keys == {name} && !sys.s.ix.entries[name].sampled && sys.s.ix.bytes == EntryCost(lim, name)
  {
    var init, steps := Initial(lim), InHand(name, st);
    RootIsListed(lim);
    assert steps[..3] == BEGUN + [WalkBatch([DirEntry(name, false, st)])];
    NextFinds(init, BEGUN, name, st);
  }

  /** In a scan that has come to nothing yet, a batch brings the file. */
  ghost predicate Fresh(sys: System, name: Text) {
    && sys.walker == Listing([], sys.s.gen, 1, false) && !sys.stopping && !sys.s.flags.indexFull
    && sys.s.ix.entries == map[] && sys.s.ix.bytes == 0 && sys.s.files == [] && !sys.s.flags.samplingStopped
    && !FormatOf(name).NoFormat? && EntryCost(sys.s.ix.lim, name) <= sys.s.ix.lim.maxMemory
  }

  lemma NextFinds(init: System, steps: seq<Step>, name: Text, st: Stat)
    requires Runs(init, steps) && Fresh(After(init, steps), name)
    ensures var more := steps + [WalkBatch([DirEntry(name, false, st)])];
      && Runs(init, more)
      && var before, next := After(init, steps), After(init, more); var x := next.s.ix;
      && next == before.(s := next.s) && next.s.files == [name]
      && x.entries.Keys == {name} && !x.entries[name].sampled && x.bytes == EntryCost(before.s.ix.lim, name)
      && x.knownDirs == before.s.ix.knownDirs && x.unreadable == before.s.ix.unreadable
  {
    BatchFinds(After(init, steps), name, st);
    RunsGoOn(init, steps, WalkBatch([DirEntry(name, false, st)]));
  }

  lemma BatchFinds(sys: System, name: Text, st: Stat)
    requires Inv(sys) && Fresh(sys, name)
    ensures var next := Next(sys, WalkBatch([DirEntry(name, false, st)])); var x := next.s.ix;
      && next == sys.(s := next.s) && next.s.files == [name]
      && x.entries.Keys == {name} && !x.entries[name].sampled && x.bytes == EntryCost(sys.s.ix.lim, name)
      && x.knownDirs == sys.s.ix.knownDirs && x.unreadable == sys.s.ix.unreadable
  {
    FirstFile(sys.s, name, st);
  }

  /** A file is found, and memory runs out as a refresh queues the root: charged is what was cleared. */
  lemma RefreshCanBeOff(lim: Limits, name: Text, st: Stat)
    requires !FormatOf(name).NoFormat? && EntryCost(lim, name) <= lim.maxMemory
    ensures Runs(Initial(lim), InHand(name, st)[..3])
    ensures var sys := After(Initial(lim), InHand(name, st)[..3]);
      var turn := Fails(TheAsker, RestartWalk);
      && Good(sys.s, ALL) && CanTurn(sys, turn)
      && var x := Turned(sys, turn).s.ix;
      && x.entries == map[] && x.knownDirs == map[] && x.unreadable == {} && x.bytes == EntryCost(lim, name) > 0
      && !Books(x)
  {
    FileIsFound(lim, name, st);
    RestartFailure(After(Initial(lim), InHand(name, st)[..3]).s);
  }

  lemma FileInHand(lim: Limits, name: Text, st: Stat)
    requires !FormatOf(name).NoFormat? && EntryCost(lim, name) <= lim.maxMemory
    ensures Runs(Initial(lim), InHand(name, st))
    ensures var sys := After(Initial(lim), InHand(name, st));
      && sys.sampler == Reading(name, sys.s.gen, None) && !sys.stopping && sys.s.ix.lim == lim
      && sys.s.ix.entries.Keys == {name} && !sys.s.ix.entries[name].sampled && sys.s.ix.bytes == EntryCost(lim, name)
  {
    var init, steps := Initial(lim), InHand(name, st);
    FileIsFound(lim, name, st);
    TakenInHand(After(init, steps[..3]), name);
    RunOn(init, steps, 3);
    assert steps[..4] == steps;
  }

  lemma TakenInHand(sys: System, name: Text)
    requires Inv(sys) && !sys.stopping && sys.sampler.Free? && sys.desk.requests == [] && sys.s.files == [name]
    requires name in sys.s.ix.entries && !sys.s.ix.entries[name].sampled
    ensures Enabled(sys, SampleTakeFile)
    ensures Next(sys, SampleTakeFile) == sys.(s := sys.s.(files := []), sampler := Reading(name, sys.s.gen, None))
  {
    assert sys.s.files[1..] == [];
  }

  lemma FirstFile(s: State, name: Text, st: Stat)
    requires Good(s, ALL) && s.ix.entries == map[] && s.ix.bytes == 0 && s.files == [] && !s.flags.samplingStopped
    requires !FormatOf(name).NoFormat? && EntryCost(s.ix.lim, name) <= s.ix.lim.maxMemory
    ensures var t := MergeBatch(s, [], [DirEntry(name, false, st)]);
      && t.files == [name] && t.ix.entries.Keys == {name} && !t.ix.entries[name].sampled
      && t.ix.bytes == EntryCost(s.ix.lim, name) && t.gen == s.gen && t.ix.lim == s.ix.lim
      && t.ix.knownDirs == s.ix.knownDirs && t.ix.unreadable == s.ix.unreadable
  {
    var batch := [DirEntry(name, false, st)];
    assert batch[1..] == [];
    assert MergeBatch(MergeOne(s, [], batch[0]), [], []) == MergeOne(s, [], batch[0]);
    RoomWithoutEviction(s, EntryCost(s.ix.lim, name));
    var u := s.(ix := AddEntry(s.ix, name, st));
    assert MergeFile(s, name, st).0 == Touch(u, name, st);
  }

  /** Memory runs out as the preview gets its place in the list: it is held, and the list does not know it. */
  lemma ListCanLack(lim: Limits, name: Text, st: Stat, p: Preview)
    requires !FormatOf(name).NoFormat? && EntryCost(lim, name) + PreviewCost(lim, p) <= lim.maxMemory
    ensures Runs(Initial(lim), InHand(name, st))
    ensures var sys := After(Initial(lim), InHand(name, st));
      var turn := Fails(TheSampler, ListSampled(name, st, p));
      && Good(sys.s, ALL) && CanTurn(sys, turn)
      && var x := Turned(sys, turn).s.ix;
      && name in x.entries && x.entries[name].held.Some? && name !in x.lru && !LruOk(x)
  {
    FileInHand(lim, name, st);
    UnlistedTurn(After(Initial(lim), InHand(name, st)), name, st, p);
  }

  lemma UnlistedTurn(sys: System, name: Text, st: Stat, p: Preview)
    requires Good(sys.s, ALL) && SampleFits(sys.s, name, p) && sys.sampler.Reading? && !sys.stopping
    ensures var turn := Fails(TheSampler, ListSampled(name, st, p));
      && CanTurn(sys, turn)
      && var x := Turned(sys, turn).s.ix;
      && name in x.entries && x.entries[name].held.Some? && name !in x.lru && !LruOk(x)
  {
    UnlistedSample(sys.s, name, st, p);
  }

  lemma UnlistedSample(s: State, rel: Text, st: Stat, p: Preview)
    requires Good(s, ALL) && SampleFits(s, rel, p)
    ensures var x := StoreSampledFails(s, rel, st, p, true).ix;
      rel in x.entries && x.entries[rel].held.Some? && rel !in x.lru && !LruOk(x)
  {
    assert EntryOk(s.ix.lim, s.ix.entries[rel]);
    ForgetPreviewKeepsBooks(s.ix, rel);
    var x := ForgetPreview(s.ix, rel);
    ReplaceKeepsBooks(x, rel, x.entries[rel].(stat := st));
    UnlistedIsLost(Replace(x, rel, x.entries[rel].(stat := st)), rel, p, st);
  }

  /** The scan of an empty root comes to its end. */
  function EmptyScan(): seq<Step> { BEGUN + [WalkEnd(Whole), WalkRest] }

  lemma EmptyScanEnds(lim: Limits)
    ensures Runs(Initial(lim), EmptyScan())
    ensures var sys := After(Initial(lim), EmptyScan());
      && StatusOf(sys).Complete? && !sys.stopping && !sys.s.flags.indexFull
      && sys.s.ix.entries == map[] && sys.s.ix.knownDirs == map[] && sys.s.ix.lim == lim && sys.s.ix.bytes == 0
      && !sys.s.flags.samplingStopped && sys.s.files == [] && sys.sampler.Free?
  {
    var init, steps := Initial(lim), EmptyScan();
    RootIsListed(lim);
    assert steps[..2] == BEGUN && steps[..4] == steps;
    var x := After(init, BEGUN).s.ix;
    var r := RemoveUnseen(ForgetUnreadable(x, []), [], 1);
    assert r.entries == map[] && r.knownDirs.Keys == {} && r.unreadable == {};
    RunOn(init, steps, 2);
    RunOn(init, steps, 3);
  }

  /** Then a request meets a file, and memory runs out as it is queued: "complete", and one file is not sampled. */
  lemma CompleteCanBeWrong(lim: Limits, rel: Text, st: Stat)
    requires !FormatOf(rel).NoFormat? && EntryCost(lim, rel) <= lim.maxMemory
    ensures Runs(Initial(lim), EmptyScan())
    ensures var sys := After(Initial(lim), EmptyScan());
      var turn := Fails(TheAsker, QueueFile(rel, st));
      && Good(sys.s, ALL) && CanTurn(sys, turn) && !TurnBreaks(sys, turn)
      && var end := Turned(sys, turn);
      && !end.stopping && StatusOf(end).Complete? && |end.s.ix.entries| == 1 && end.s.ix.sampled == 0
  {
    EmptyScanEnds(lim);
    NotQueued(After(Initial(lim), EmptyScan()).s, rel, st);
  }

  lemma NotQueued(s: State, rel: Text, st: Stat)
    requires Good(s, ALL) && s.ix.entries == map[] && s.ix.bytes == 0 && !FormatOf(rel).NoFormat?
    requires EntryCost(s.ix.lim, rel) <= s.ix.lim.maxMemory
    ensures var t := MergeFileFails(s, QueueFile(rel, st));
      && |t.ix.entries| == 1 && t.ix.sampled == 0
      && t.files == s.files && t.dirs == s.dirs && t.flags == s.flags
  {
    RoomWithoutEviction(s, EntryCost(s.ix.lim, rel));
    assert EntryTotals(s.ix.lim, map[]) == Totals(0, 0, 0);
  }
}
