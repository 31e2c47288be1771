/**
  * Memory can run out inside a critical section. What an allocation that fails there leaves behind, which
  * failures break the books, and what holds in every run with the others.
  */
module ScannerFailures {
  import opened Bytes
  import opened ScannerState
  import opened ScannerBooks
  import opened ScannerTrees
  import opened ScannerRun
  import opened ScannerTheorems

  /** One name leaves one of the collections. */
  datatype Erasure = OfFile(rel: Text) | OfDir(rel: Text) | OfUnreadable(rel: Text)

  /** The allocation that fails, by the statement it is in. */
  datatype Failure =
    | EnterFile(rel: Text, st: Stat)                    // merge_file: theEntries.emplace
    | FormatFile(rel: Text, st: Stat)                   // merge_file: scan_format
    | QueueFile(rel: Text, st: Stat)                    // merge_file: theFiles.push_back
    | EnterDir(rel: Text, mtime: int)                   // merge_dir: theKnownDirs.emplace
    | QueueDir(rel: Text, mtime: int)                   // merge_dir: theDirs.push_back
    | RequeueDir(rel: Text, mtime: int)                 // check_known_dirs: theDirs.push_back
    | NoteDir(rel: Text)                                // note_unreadable: theUnreadable.insert
    | CopySampled(rel: Text, st: Stat, p: Preview)      // hold_preview, for the sampler: the texts
    | ListSampled(rel: Text, st: Stat, p: Preview)      // hold_preview, for the sampler: theLru.insert
    | CopyRequested(rel: Text, st: Stat, p: Preview)    // hold_preview, for a request: the texts
    | ListRequested(rel: Text, st: Stat, p: Preview)    // hold_preview, for a request: theLru.insert
    | GiveAnswer(rel: Text, st: Stat, p: Preview)       // sample: request->preview
    | AnswerFails(rel: Text, st: Stat)                  // file_answer, after the merge: request_for, or the copy
    | Removal(done: seq<Erasure>)                       // remove_unseen, erase_tree: between two erasures
    | RestartWalk                                       // refresh: theDirs.push_back

  predicate OfMerge(f: Failure) { f.EnterFile? || f.FormatFile? || f.QueueFile? }

  /** Only the sampler stores what was read. */
  predicate OfSampler(f: Failure) {
    f.CopySampled? || f.ListSampled? || f.CopyRequested? || f.ListRequested? || f.GiveAnswer?
  }

  // ---- What each leaves behind

  /** The end of merge_file, where the file could not be queued. */
  function SettleFails(s: State, rel: Text): State
    requires rel in s.ix.entries
  {
    Settle(s, rel).(files := s.files)
  }

  function TouchFails(s: State, rel: Text, st: Stat): State
    requires rel in s.ix.entries
  {
    SettleFails(s.(ix := Restat(s.ix, rel, st, s.stamp)), rel)
  }

  /** An entry that is in and charged, and nothing more. */
  function Bare(x: Index, rel: Text): Index {
    x.(entries := x.entries[rel := Entry(NoFormat, Stat(0, 0), 0, false, false, None)],
       bytes := x.bytes + EntryCost(x.lim, rel))
  }

  ghost function MergeFileFails(s: State, f: Failure): State
    requires Books(s.ix) && OfMerge(f)
  {
    if f.rel in s.ix.entries then (if f.QueueFile? then TouchFails(s, f.rel, f.st) else s) else
      var (t, room) := RoomInIndex(s, EntryCost(s.ix.lim, f.rel));
      if !room || f.EnterFile? then t
      else if f.FormatFile? then t.(ix := Bare(t.ix, f.rel))
      else TouchFails(t.(ix := AddEntry(t.ix, f.rel, f.st)), f.rel, f.st)
  }

  ghost function MergeDirFails(s: State, f: Failure): State
    requires Books(s.ix) && (f.EnterDir? || f.QueueDir?)
  {
    if f.EnterDir? && f.rel !in s.ix.knownDirs && !s.flags.indexFull && Slashes(f.rel) < MAX_WALK_DEPTH then
      RoomInIndex(s, DirCost(s.ix.lim, f.rel)).0
    else if f.EnterDir? then s
    else
      var t := MergeDir(s, f.rel, f.mtime);
      if |t.dirs| > |s.dirs| then t.(dirs := s.dirs) else t
  }

  /** Charged before it is noted: the charge is lost. */
  ghost function NoteDirFails(s: State, rel: Text): State
    requires Books(s.ix)
  {
    if rel in s.ix.unreadable then s else
      var (t, room) := RoomInIndex(s, DirCost(s.ix.lim, rel));
      if room then t.(ix := Charge(t.ix, DirCost(t.ix.lim, rel))) else t
  }

  function Charge(x: Index, cost: nat): Index { x.(bytes := x.bytes + cost, lost := x.lost + cost) }

  /** A preview that the entry has and is charged for, and that no list knows. */
  function HoldUnlisted(x: Index, rel: Text, p: Preview, madeFrom: Stat): Index
    requires rel in x.entries
  {
    var cost := PreviewCost(x.lim, p);
    x.(entries := x.entries[rel := x.entries[rel].(held := Some(Held(p, cost, madeFrom)))],
       bytes := x.bytes + cost, previewBytes := x.previewBytes + cost)
  }

  /** hold_preview is reached for what the sampler read. */
  predicate SampleFits(s: State, rel: Text, p: Preview) {
    rel in s.ix.entries && !s.ix.entries[rel].sampled && s.ix.bytes + PreviewCost(s.ix.lim, p) <= s.ix.lim.maxMemory
  }

  function StoreSampledFails(s: State, rel: Text, st: Stat, p: Preview, listed: bool): State {
    if !SampleFits(s, rel, p) then StoreSampled(s, rel, s.gen, st, p)
    else
      var x := ForgetPreview(s.ix, rel);
      var y := Replace(x, rel, x.entries[rel].(stat := st));
      s.(ix := if listed then HoldUnlisted(y, rel, p, st) else y)
  }

  /** The same for what a request read: it has been merged by then. */
  predicate RequestFits(s: State, rel: Text, p: Preview) {
    rel in s.ix.entries && s.ix.bytes - s.ix.previewBytes + PreviewCost(s.ix.lim, p) <= s.ix.lim.maxMemory
  }

  ghost function HoldRequestedFails(s: State, rel: Text, st: Stat, p: Preview, listed: bool): State
    requires Books(s.ix) && rel in s.ix.entries
  {
    if !RequestFits(s, rel, p) then StopSampling(s)
    else
      var t := AfterEviction(s, EvictToFit(s.ix, PreviewCost(s.ix.lim, p)));
      if listed then t.(ix := HoldUnlisted(t.ix, rel, p, st)) else t
  }

  ghost function StoreRequestedFails(s: State, rel: Text, st: Stat, p: Preview, listed: bool): State
    requires Good(s, ALL)
  {
    MergeFileKeepsGood(s, rel, st, ALL);
    var (t, merged) := MergeFile(s, rel, st);
    MergedStat(s, rel, st);
    if !merged then t else
      ForgetPreviewKeepsBooks(t.ix, rel);
      HoldRequestedFails(t.(ix := ForgetPreview(t.ix, rel)), rel, st, p, listed)
  }

  function EraseOne(x: Index, e: Erasure): Index {
    match e
    case OfFile(rel) => if rel in x.entries then Erase(x, rel) else x
    case OfDir(rel) =>
      if rel in x.knownDirs then x.(knownDirs := x.knownDirs - {rel}, bytes := x.bytes - DirCost(x.lim, rel)) else x
    case OfUnreadable(rel) => ForgetUnreadable(x, rel)
  }

  function EraseSome(x: Index, done: seq<Erasure>): Index
    decreases |done|
  {
    if done == [] then x else EraseSome(EraseOne(x, done[0]), done[1..])
  }

  /** Everything is cleared but the counters. */
  function RestartFails(s: State): State {
    s.(ix := s.ix.(entries := map[], knownDirs := map[], unreadable := {}, lru := []), dirs := [], files := [],
       gen := s.gen + 1)
  }

  /** The state that a failure leaves behind. */
  ghost function LeftBehind(s: State, f: Failure): State
    requires Good(s, ALL)
  {
    match f
    case EnterFile(_, _) => MergeFileFails(s, f)
    case FormatFile(_, _) => MergeFileFails(s, f)
    case QueueFile(_, _) => MergeFileFails(s, f)
    case EnterDir(_, _) => MergeDirFails(s, f)
    case QueueDir(_, _) => MergeDirFails(s, f)
    case RequeueDir(rel, mtime) => WalkOne(s, rel, mtime).(dirs := s.dirs)
    case NoteDir(rel) => NoteDirFails(s, rel)
    case CopySampled(rel, st, p) => StoreSampledFails(s, rel, st, p, false)
    case ListSampled(rel, st, p) => StoreSampledFails(s, rel, st, p, true)
    case CopyRequested(rel, st, p) => StoreRequestedFails(s, rel, st, p, false)
    case ListRequested(rel, st, p) => StoreRequestedFails(s, rel, st, p, true)
    case GiveAnswer(rel, st, p) => StoreRead(s, rel, s.gen, true, Opened(st, p))
    case AnswerFails(rel, st) => MergeFile(s, rel, st).0
    case Removal(done) => s.(ix := EraseSome(s.ix, done))
    case RestartWalk => RestartFails(s)
  }

  // ---- Which of them break the books

  /** The guard of the statement that is reached: held and not listed, or cleared and not reset. */
  ghost predicate Breaks(s: State, f: Failure)
    requires Good(s, ALL)
  {
    match f
    case ListSampled(rel, _, p) => SampleFits(s, rel, p)
    case ListRequested(rel, st, p) => RequestFits(MergeFile(s, rel, st).0, rel, p)
    case RestartWalk => s.ix.entries != map[] || s.ix.knownDirs != map[] || s.ix.unreadable != {}
    case _ => false
  }

  lemma BareKeepsBooks(x: Index, rel: Text)
    requires Books(x) && rel !in x.entries && x.bytes + EntryCost(x.lim, rel) <= x.lim.maxMemory
    ensures Books(Bare(x, rel))
  {
    PutEntry(x.lim, x.entries, rel, Entry(NoFormat, Stat(0, 0), 0, false, false, None));
  }

  lemma NewFileFailureKeepsBooks(s: State, f: Failure)
    requires Good(s, ALL) && OfMerge(f) && f.rel !in s.ix.entries
    ensures Good(MergeFileFails(s, f), ALL)
  {
    var (t, room) := RoomInIndex(s, EntryCost(s.ix.lim, f.rel));
    RoomKeepsAccounts(s, EntryCost(s.ix.lim, f.rel), ALL);
    if room && f.FormatFile? {
      BareKeepsBooks(t.ix, f.rel);
    } else if room && f.QueueFile? {
      AddEntryKeepsBooks(t.ix, f.rel, f.st);
      TouchKeepsBooks(t.(ix := AddEntry(t.ix, f.rel, f.st)), f.rel, f.st);
    }
  }

  lemma FileFailureKeepsBooks(s: State, f: Failure)
    requires Good(s, ALL) && OfMerge(f)
    ensures Good(MergeFileFails(s, f), ALL)
  {
    if f.rel in s.ix.entries {
      TouchKeepsBooks(s, f.rel, f.st);
    } else {
      NewFileFailureKeepsBooks(s, f);
    }
  }

  lemma DirFailureKeepsBooks(s: State, f: Failure)
    requires Good(s, ALL) && (f.EnterDir? || f.QueueDir?)
    ensures Good(MergeDirFails(s, f), ALL)
  {
    RoomKeepsAccounts(s, DirCost(s.ix.lim, f.rel), ALL);
    MergeDirKeepsGood(s, f.rel, f.mtime, ALL);
  }

  // ---- What is lost

  /** What the failure charges for and does not note. */
  ghost function Loss(s: State, f: Failure): nat {
    match f
    case NoteDir(rel) =>
      if rel !in s.ix.unreadable && s.ix.bytes - s.ix.previewBytes + DirCost(s.ix.lim, rel) <= s.ix.lim.maxMemory
      then DirCost(s.ix.lim, rel) else 0
    case _ => 0
  }

  lemma ChargeKeepsBooks(x: Index, cost: nat)
    requires Books(x) && x.bytes + cost <= x.lim.maxMemory
    ensures Books(Charge(x, cost))
  {
  }

  lemma NoteFailure(s: State, rel: Text, spared: iset<Text>)
    requires Good(s, spared)
    ensures Good(NoteDirFails(s, rel), spared) && NoteDirFails(s, rel).ix.lost == s.ix.lost + Loss(s, NoteDir(rel))
  {
    RoomKeepsAccounts(s, DirCost(s.ix.lim, rel), spared);
    var (t, room) := RoomInIndex(s, DirCost(s.ix.lim, rel));
    if room { ChargeKeepsBooks(t.ix, DirCost(t.ix.lim, rel)); }
  }

  /** An entry holds a preview that the list lacks: the next forget_preview erases what is no place in it. */
  lemma UnlistedIsLost(x: Index, rel: Text, p: Preview, st: Stat)
    requires Books(x) && rel in x.entries && x.entries[rel].held.None? && !x.entries[rel].sampled
    requires x.bytes + PreviewCost(x.lim, p) <= x.lim.maxMemory
    ensures var y := HoldUnlisted(x, rel, p, st);
      && y.entries[rel].held.Some? && rel !in y.lru && !LruOk(y) && !Coherent(y)
      && LedgerOk(y) && y.bytes <= y.lim.maxMemory
  {
    PutEntry(x.lim, x.entries, rel, HoldUnlisted(x, rel, p, st).entries[rel]);
    var y := HoldUnlisted(x, rel, p, st);
    assert y.entries[rel].held.Some? && !EntryOk(y.lim, y.entries[rel]);
  }

  lemma SampledFailure(s: State, rel: Text, st: Stat, p: Preview, listed: bool)
    requires Good(s, ALL)
    ensures var t := StoreSampledFails(s, rel, st, p, listed);
      && (listed && SampleFits(s, rel, p) ==> !Books(t.ix))
      && (!(listed && SampleFits(s, rel, p)) ==> Good(t, ALL))
  {
    if !SampleFits(s, rel, p) {
      StoreSampledKeepsBooks(s, rel, s.gen, st, p);
      StoreSampledAccounts(s, rel, st, p, ALL);
    } else {
      assert EntryOk(s.ix.lim, s.ix.entries[rel]);
      ForgetPreviewKeepsBooks(s.ix, rel);
      var x := ForgetPreview(s.ix, rel);
      var y := Replace(x, rel, x.entries[rel].(stat := st));
      ReplaceKeepsBooks(x, rel, x.entries[rel].(stat := st));
      UnlistedIsLost(y, rel, p, st);
    }
  }

  lemma HoldFailure(s: State, rel: Text, st: Stat, p: Preview, listed: bool)
    requires Good(s, ALL) && rel in s.ix.entries && s.ix.entries[rel].held.None? && !s.ix.entries[rel].sampled
    ensures var t := HoldRequestedFails(s, rel, st, p, listed);
      && (listed && RequestFits(s, rel, p) ==> !Books(t.ix))
      && (!(listed && RequestFits(s, rel, p)) ==> Good(t, ALL))
  {
    if RequestFits(s, rel, p) {
      var y := EvictToFit(s.ix, PreviewCost(s.ix.lim, p));
      EvictionFreesPreviews(s.ix, y);
      UnlistedIsLost(y, rel, p, st);
    }
  }

  lemma RequestedFailure(s: State, rel: Text, st: Stat, p: Preview, listed: bool)
    requires Good(s, ALL)
    ensures var t := StoreRequestedFails(s, rel, st, p, listed);
      var fits := RequestFits(MergeFile(s, rel, st).0, rel, p);
      && (listed && fits ==> !Books(t.ix))
      && (!(listed && fits) ==> Good(t, ALL))
  {
    MergeFileKeepsGood(s, rel, st, ALL);
    MergedStat(s, rel, st);
    var (t, merged) := MergeFile(s, rel, st);
    if merged {
      ForgetPreviewKeepsBooks(t.ix, rel);
      var u := t.(ix := ForgetPreview(t.ix, rel));
      assert u.ix.bytes - u.ix.previewBytes == t.ix.bytes - t.ix.previewBytes;
      HoldFailure(u, rel, st, p, listed);
    }
  }

  /** An index of which anything is left is charged for more than what was lost. */
  lemma SomethingIsCharged(x: Index)
    requires LedgerOk(x) && (x.entries != map[] || x.knownDirs != map[] || x.unreadable != {})
    ensures x.bytes > x.lost
  {
    TotalsNonNegative(x.lim, x.entries);
    DirTotalNonNegative(x.lim, x.knownDirs.Keys);
    DirTotalNonNegative(x.lim, x.unreadable);
    if x.entries != map[] {
      var k :| k in x.entries;
      TakeEntry(x.lim, x.entries, k);
      TotalsNonNegative(x.lim, x.entries - {k});
    } else if x.knownDirs != map[] {
      var k :| k in x.knownDirs;
      TakeDir(x.lim, x.knownDirs.Keys, k);
      DirTotalNonNegative(x.lim, x.knownDirs.Keys - {k});
    } else {
      var k :| k in x.unreadable;
      TakeDir(x.lim, x.unreadable, k);
      DirTotalNonNegative(x.lim, x.unreadable - {k});
    }
  }

  lemma RestartFailure(s: State)
    requires Good(s, ALL)
    ensures Breaks(s, RestartWalk) ==> !Books(RestartFails(s).ix)
    ensures !Breaks(s, RestartWalk) ==> Good(RestartFails(s), ALL)
  {
    var x := RestartFails(s).ix;
    assert EntryTotals(x.lim, x.entries) == Totals(0, 0, 0) && DirTotal(x.lim, {}) == 0;
    assert x.knownDirs.Keys == {};
    if Breaks(s, RestartWalk) {
      SomethingIsCharged(s.ix);
    } else {
      assert s.ix.knownDirs.Keys == {};
    }
  }

  predicate SameTerms(x: Index, y: Index) { y.lim == x.lim && y.lost == x.lost }

  lemma {:induction false} ErasuresKeepGood(s: State, done: seq<Erasure>, spared: iset<Text>)
    requires Good(s, spared)
    ensures Good(s.(ix := EraseSome(s.ix, done)), spared) && SameTerms(s.ix, EraseSome(s.ix, done))
    decreases |done|
  {
    if done != [] {
      ErasureKeepsGood(s, done[0], spared);
      ErasuresKeepGood(s.(ix := EraseOne(s.ix, done[0])), done[1..], spared);
    }
  }

  lemma ErasureKeepsGood(s: State, e: Erasure, spared: iset<Text>)
    requires Good(s, spared)
    ensures Good(s.(ix := EraseOne(s.ix, e)), spared) && SameTerms(s.ix, EraseOne(s.ix, e))
  {
    match e
    case OfFile(rel) => if rel in s.ix.entries { EraseKeepsGood(s, rel, spared); }
    case OfDir(rel) => if rel in s.ix.knownDirs { DropDirKeepsBooks(s.ix, rel); }
    case OfUnreadable(rel) => ForgetUnreadableKeepsBooks(s.ix, rel);
  }

  lemma DropDirKeepsBooks(x: Index, rel: Text)
    requires Books(x) && rel in x.knownDirs
    ensures Books(EraseOne(x, OfDir(rel)))
  {
    TakeDir(x.lim, x.knownDirs.Keys, rel);
    assert (x.knownDirs - {rel}).Keys == x.knownDirs.Keys - {rel};
  }

  lemma StoreFailureKeepsBooksIff(s: State, f: Failure)
    requires Good(s, ALL) && OfSampler(f)
    ensures Books(LeftBehind(s, f).ix) <==> !Breaks(s, f)
    ensures !Breaks(s, f) ==> Good(LeftBehind(s, f), ALL)
  {
    match f
    case CopySampled(rel, st, p) => SampledFailure(s, rel, st, p, false);
    case ListSampled(rel, st, p) => SampledFailure(s, rel, st, p, true);
    case CopyRequested(rel, st, p) => RequestedFailure(s, rel, st, p, false);
    case ListRequested(rel, st, p) => RequestedFailure(s, rel, st, p, true);
    case GiveAnswer(rel, st, p) => StoreReadKeepsGood(s, rel, s.gen, true, Opened(st, p), ALL);
  }

  lemma OtherFailureKeepsBooksIff(s: State, f: Failure)
    requires Good(s, ALL) && !OfSampler(f)
    ensures Books(LeftBehind(s, f).ix) <==> !Breaks(s, f)
    ensures !Breaks(s, f) ==> Good(LeftBehind(s, f), ALL)
  {
    match f
    case EnterFile(_, _) => FileFailureKeepsBooks(s, f);
    case FormatFile(_, _) => FileFailureKeepsBooks(s, f);
    case QueueFile(_, _) => FileFailureKeepsBooks(s, f);
    case EnterDir(_, _) => DirFailureKeepsBooks(s, f);
    case QueueDir(_, _) => DirFailureKeepsBooks(s, f);
    case RequeueDir(rel, mtime) => WalkOneKeepsGood(s, rel, mtime, ALL);
    case NoteDir(rel) => NoteFailure(s, rel, ALL);
    case AnswerFails(rel, st) => MergeFileKeepsGood(s, rel, st, ALL);
    case Removal(done) => ErasuresKeepGood(s, done, ALL);
    case RestartWalk => RestartFailure(s);
  }

  /**
    * A failure of an allocation inside a section leaves the books right but for what it loses, exactly
    * unless it is that of a preview's place in the list, or of the first directory of a refresh.
    */
  lemma FailureKeepsBooksIff(s: State, f: Failure)
    requires Good(s, ALL)
    ensures Books(LeftBehind(s, f).ix) <==> !Breaks(s, f)
    ensures !Breaks(s, f) ==> Good(LeftBehind(s, f), ALL)
  {
    if OfSampler(f) {
      StoreFailureKeepsBooksIff(s, f);
    } else {
      OtherFailureKeepsBooksIff(s, f);
    }
  }

  lemma TouchFailsFrame(s: State, rel: Text, st: Stat)
    requires rel in s.ix.entries
    ensures Same(s, TouchFails(s, rel, st))
  {
  }

  lemma FileFailsFrame(s: State, f: Failure)
    requires Books(s.ix) && OfMerge(f)
    ensures Same(s, MergeFileFails(s, f))
  {
    if f.rel in s.ix.entries {
      TouchFailsFrame(s, f.rel, f.st);
    } else {
      var t := RoomInIndex(s, EntryCost(s.ix.lim, f.rel)).0;
      TouchFailsFrame(t.(ix := AddEntry(t.ix, f.rel, f.st)), f.rel, f.st);
    }
  }

  lemma DirFailsFrame(s: State, f: Failure)
    requires Books(s.ix) && (f.EnterDir? || f.QueueDir?)
    ensures Same(s, MergeDirFails(s, f))
  {
  }

  lemma SampledFrame(s: State, rel: Text, st: Stat, p: Preview, listed: bool)
    ensures Same(s, StoreSampledFails(s, rel, st, p, listed))
  {
  }

  lemma RequestedFrame(s: State, rel: Text, st: Stat, p: Preview, listed: bool)
    requires Good(s, ALL)
    ensures Same(s, StoreRequestedFails(s, rel, st, p, listed))
  {
  }

  /** What a failure leaves of generation and losses. */
  lemma LeftBehindFrame(s: State, f: Failure)
    requires Good(s, ALL)
    ensures LeftBehind(s, f).gen == (if f.RestartWalk? then s.gen + 1 else s.gen)
    ensures LeftBehind(s, f).ix.lost == s.ix.lost + Loss(s, f) && LeftBehind(s, f).ix.lim == s.ix.lim
    ensures f.RestartWalk? ==> LeftBehind(s, f).ix.entries == map[]
  {
    if OfMerge(f) { FileFailsFrame(s, f); }
    if f.EnterDir? || f.QueueDir? { DirFailsFrame(s, f); }
    if f.CopySampled? || f.ListSampled? { SampledFrame(s, f.rel, f.st, f.p, f.ListSampled?); }
    if f.CopyRequested? || f.ListRequested? { RequestedFrame(s, f.rel, f.st, f.p, f.ListRequested?); }
    if f.NoteDir? { NoteFailure(s, f.rel, ALL); }
    if f.Removal? { ErasuresKeepGood(s, f.done, ALL); }
  }

  // ---- Runs with failures

  datatype Thread = TheWalker | TheSampler | TheAsker

  /** What list_level does. */
  predicate OfListing(f: Failure) { OfMerge(f) || f.EnterDir? || f.QueueDir? || f.NoteDir? || f.Removal? }

  /** A step, or a failure in a section of one of the threads. */
  datatype Turn = Takes(step: Step) | Fails(who: Thread, f: Failure)

  ghost predicate CanTurn(sys: System, turn: Turn) {
    match turn
    case Takes(step) => Enabled(sys, step)
    case Fails(who, f) =>
      match who
      case TheWalker => sys.walker.Listing? && OfListing(f)
      case TheSampler => sys.sampler.Reading? && !sys.stopping && (OfSampler(f) || OfMerge(f))
      case TheAsker => !OfSampler(f)
  }

  /**
    * The walker ends its walk, the sampler stops sampling; a request ends with its error, and nobody cleans
    * up. A refresh has dropped the waiting requests by then.
    */
  ghost function Caught(sys: System, who: Thread, t: State, restarted: bool): System {
    match who
    case TheWalker => sys.(s := EndWalk(t), walker := AtRest)
    case TheSampler => sys.(s := StopSampling(t), desk := sys.desk.(current := None), sampler := Free)
    case TheAsker =>
      sys.(s := t, asker := AtRest, desk := if restarted then sys.desk.(requests := []) else sys.desk)
  }

  ghost function Turned(sys: System, turn: Turn): System
    requires Good(sys.s, ALL) && CanTurn(sys, turn)
  {
    match turn
    case Takes(step) => Next(sys, step)
    case Fails(who, f) => Caught(sys, who, LeftBehind(sys.s, f), f.RestartWalk?)
  }

  ghost predicate TurnBreaks(sys: System, turn: Turn)
    requires Good(sys.s, ALL)
  {
    turn.Fails? && Breaks(sys.s, turn.f)
  }

  /** Turns that can be taken one after the other, none of them a failure that breaks the books. */
  ghost predicate Turns(sys: System, turns: seq<Turn>)
    decreases |turns|
  {
    turns == [] ||
    (CanTurn(sys, turns[0]) &&
     (Good(sys.s, ALL) ==> !TurnBreaks(sys, turns[0]) && Turns(Turned(sys, turns[0]), turns[1..])))
  }

  lemma StepKeepsBooks(sys: System, step: Step)
    requires Good(sys.s, ALL) && Enabled(sys, step)
    ensures Good(Next(sys, step).s, ALL)
  {
    match step
    case WalkEnd(o) => EndListingKeepsGood(sys.s, sys.walker.dir, sys.walker.gen, sys.walker.start, o, ALL);
    case AskEnd(o) => EndListingKeepsGood(sys.s, sys.asker.dir, sys.asker.gen, sys.asker.start, o, ALL);
    case SampleDone(read) =>
      assert ALL + iset{sys.sampler.rel} == ALL;
      StoreReadKeepsGood(sys.s, sys.sampler.rel, sys.sampler.gen, sys.sampler.request.Some?, read, ALL);
    case AskFile(rel, st) => AnswerKeepsBooks(sys, rel, st);
    case AskErase(rel) =>
      RemoveKeepsGood(sys.s, TreeIn(sys.s.ix.entries.Keys, rel), TreeIn(sys.s.ix.knownDirs.Keys, rel),
                      TreeIn(sys.s.ix.unreadable, rel), ALL);
    case AskRecheck(goneDirs, changedDirs) =>
      EraseTreeEachKeepsGood(sys.s, goneDirs, ALL);
      WalkAgainKeepsGood(sys.s.(ix := EraseTreeEach(sys.s.ix, goneDirs)), changedDirs, ALL);
    case AskRelist(goneFiles, _) => EraseEachKeepsGood(sys.s, goneFiles, ALL);
    case _ =>
  }

  lemma AnswerKeepsBooks(sys: System, rel: Text, st: Stat)
    requires Good(sys.s, ALL)
    ensures Good(AnswerFile(sys, rel, st).s, ALL)
  {
    MergeFileKeepsGood(sys.s, rel, st, ALL);
    var t := MergeFile(sys.s, rel, st).0;
    if Served(t, rel) { PromoteKeepsBooks(t.ix, rel); }
  }

  lemma TurnKeepsBooks(sys: System, turn: Turn)
    requires Good(sys.s, ALL) && CanTurn(sys, turn) && !TurnBreaks(sys, turn)
    ensures Good(Turned(sys, turn).s, ALL)
  {
    match turn
    case Takes(step) => StepKeepsBooks(sys, step);
    case Fails(_, f) => FailureKeepsBooksIff(sys.s, f);
  }

  /** Where the turns lead. */
  ghost function AfterTurns(sys: System, turns: seq<Turn>): (end: System)
    requires Good(sys.s, ALL) && Turns(sys, turns)
    ensures Good(end.s, ALL)
    decreases |turns|
  {
    if turns == [] then sys else
      TurnKeepsBooks(sys, turns[0]);
      AfterTurns(Turned(sys, turns[0]), turns[1..])
  }

  /** What failures have lost since the last refresh, or by the turns and `lost` before them. */
  ghost function LostBy(sys: System, turns: seq<Turn>, lost: nat): nat
    requires Good(sys.s, ALL) && Turns(sys, turns)
    decreases |turns|
  {
    if turns == [] then lost else
      TurnKeepsBooks(sys, turns[0]);
      LostBy(Turned(sys, turns[0]), turns[1..], LostAfter(sys, turns[0], lost))
  }

  ghost function LostAfter(sys: System, turn: Turn, lost: nat): nat {
    match turn
    case Takes(step) => if step.Refresh? then 0 else lost
    case Fails(_, f) => lost + Loss(sys.s, f)
  }

  lemma TurnLoses(sys: System, turn: Turn)
    requires Good(sys.s, ALL) && CanTurn(sys, turn)
    ensures Turned(sys, turn).s.ix.lost == LostAfter(sys, turn, sys.s.ix.lost)
    ensures Turned(sys, turn).s.ix.lim == sys.s.ix.lim
  {
    if turn.Fails? { LeftBehindFrame(sys.s, turn.f); }
  }

  lemma {:induction false} TurnsLose(sys: System, turns: seq<Turn>)
    requires Good(sys.s, ALL) && Turns(sys, turns)
    ensures AfterTurns(sys, turns).s.ix.lost == LostBy(sys, turns, sys.s.ix.lost)
    decreases |turns|
  {
    if turns != [] {
      TurnKeepsBooks(sys, turns[0]);
      TurnLoses(sys, turns[0]);
      TurnsLose(Turned(sys, turns[0]), turns[1..]);
    }
  }

  /**
    * In every run, with memory running out wherever it may but at those two places: theBytes is what
    * entries, known and unreadable directories and held previews are charged, and what failed notes of
    * unreadable directories since the last refresh were charged; thePreviewBytes the previews' part,
    * theSampled the number of the sampled; theLru lists the entries with previews once each; and the sum is
    * within the limit.
    */
  lemma LedgerDespiteFailures(lim: Limits, turns: seq<Turn>)
    requires Turns(Initial(lim), turns)
    ensures Good(Initial(lim).s, ALL)
    ensures var x := AfterTurns(Initial(lim), turns).s.ix; var t := EntryTotals(x.lim, x.entries);
      && x.bytes == t.index + t.previews + DirTotal(x.lim, x.knownDirs.Keys) + DirTotal(x.lim, x.unreadable) +
                    LostBy(Initial(lim), turns, 0)
      && x.previewBytes == t.previews && x.sampled == t.sampled
      && 0 <= x.previewBytes <= x.bytes <= x.lim.maxMemory
      && NoDup(x.lru) && (forall k :: k in x.lru <==> k in x.entries && x.entries[k].held.Some?)
  {
    InitialInv(lim);
    TurnsLose(Initial(lim), turns);
    NoUnderflow(AfterTurns(Initial(lim), turns).s.ix);
  }

  // ---- Nothing is forgotten

  /** The file is neither queued nor in the sampler's hand, and sampling goes on. */
  ghost predicate Unheeded(s: State, rel: Text, spared: iset<Text>) {
    !s.flags.samplingStopped && rel !in s.files && rel !in spared
  }

  /** A file is in the index, not sampled, and nobody will come to it: nobody stopped sampling for the failure. */
  ghost predicate Forgets(s: State, f: Failure, spared: iset<Text>) {
    match f
    case FormatFile(rel, _) =>
      rel !in s.ix.entries && s.ix.bytes + EntryCost(s.ix.lim, rel) <= s.ix.lim.maxMemory && Unheeded(s, rel, spared)
    case QueueFile(rel, st) =>
      && Unheeded(s, rel, spared)
      && if rel in s.ix.entries then s.ix.entries[rel].stat != st && !s.ix.entries[rel].format.NoFormat?
         else s.ix.bytes + EntryCost(s.ix.lim, rel) <= s.ix.lim.maxMemory && !FormatOf(rel).NoFormat?
    case _ => false
  }

  /** With room for it the index takes an entry without any eviction, and sampling goes on; with evictions it stops. */
  lemma RoomWithoutEviction(s: State, cost: nat)
    requires Good(s, ALL) && RoomInIndex(s, cost).1
    ensures if s.ix.bytes + cost <= s.ix.lim.maxMemory then RoomInIndex(s, cost).0 == s
            else RoomInIndex(s, cost).0.flags.samplingStopped
  {
    if s.ix.bytes + cost > s.ix.lim.maxMemory { EvictsAtLeastOne(s.ix, cost); }
  }

  lemma EvictsAtLeastOne(x: Index, cost: nat)
    requires Books(x) && x.bytes + cost > x.lim.maxMemory && x.lru != []
    ensures EvictToFit(x, cost).lru != x.lru
  {
    EvictOnce(x);
    var y := EvictToFit(EvictColdest(x), cost);
    assert y.lru <= EvictColdest(x).lru;
  }

  /** What a failed end of merge_file leaves of an entry that was accounted for, or is new. */
  lemma TouchForgets(s: State, rel: Text, st: Stat, spared: iset<Text>)
    requires rel in s.ix.entries && (s.flags.samplingStopped ==> s.flags.limitHit)
    requires s.flags.samplingStopped || forall k :: k in s.ix.entries && k != rel ==>
      s.ix.entries[k].sampled || k in s.files || k in spared
    ensures var e := Restat(s.ix, rel, st, s.stamp).entries[rel];
      Accounted(TouchFails(s, rel, st), spared) <==> !(Unheeded(s, rel, spared) && !e.sampled && !e.format.NoFormat?)
  {
    RestatFrame(s.ix, rel, st, s.stamp);
    var r := s.(ix := Restat(s.ix, rel, st, s.stamp));
    var t := SettleFails(r, rel);
    assert t.ix.entries.Keys == s.ix.entries.Keys;
    assert forall k :: k in s.ix.entries && k != rel ==> t.ix.entries[k] == s.ix.entries[k];
    assert t.ix.entries[rel].sampled <==> r.ix.entries[rel].sampled || r.ix.entries[rel].format.NoFormat?;
  }

  lemma KnownFileForgets(s: State, f: Failure, spared: iset<Text>)
    requires Good(s, spared) && f.QueueFile? && f.rel in s.ix.entries
    ensures Accounted(TouchFails(s, f.rel, f.st), spared) <==> !Forgets(s, f, spared)
  {
    TouchForgets(s, f.rel, f.st, spared);
    RestatFrame(s.ix, f.rel, f.st, s.stamp);
    if s.ix.entries[f.rel].stat != f.st { RestatUnmarks(s.ix, f.rel, f.st, s.stamp); }
  }

  lemma RestatUnmarks(x: Index, rel: Text, st: Stat, stamp: nat)
    requires rel in x.entries && x.entries[rel].stat != st
    ensures !Restat(x, rel, st, stamp).entries[rel].sampled
  {
  }

  lemma NewFileForgets(s: State, f: Failure, spared: iset<Text>)
    requires Good(s, spared) && Good(s, ALL) && OfMerge(f) && f.rel !in s.ix.entries
    ensures Accounted(MergeFileFails(s, f), spared) <==> !Forgets(s, f, spared)
  {
    var cost := EntryCost(s.ix.lim, f.rel);
    var (t, room) := RoomInIndex(s, cost);
    RoomKeepsAccounts(s, cost, spared);
    if room {
      RoomWithoutEviction(s, cost);
      if f.FormatFile? {
        BareForgets(t, f.rel, spared);
      } else if f.QueueFile? {
        AddedForgets(t, f.rel, f.st, spared);
      }
    }
  }

  lemma BareForgets(t: State, rel: Text, spared: iset<Text>)
    requires Accounted(t, spared) && rel !in t.ix.entries
    ensures Accounted(t.(ix := Bare(t.ix, rel)), spared) <==> !Unheeded(t, rel, spared)
  {
    var es := Bare(t.ix, rel).entries;
    assert !es[rel].sampled && forall k :: k in t.ix.entries ==> k in es && es[k] == t.ix.entries[k];
  }

  lemma AddedForgets(t: State, rel: Text, st: Stat, spared: iset<Text>)
    requires Accounted(t, spared) && rel !in t.ix.entries
    ensures var u := t.(ix := AddEntry(t.ix, rel, st));
      Accounted(TouchFails(u, rel, st), spared) <==> !(Unheeded(t, rel, spared) && !FormatOf(rel).NoFormat?)
  {
    var u := t.(ix := AddEntry(t.ix, rel, st));
    TouchForgets(u, rel, st, spared);
    RestatFrame(u.ix, rel, st, u.stamp);
  }

  lemma OtherFailuresForgetNothing(s: State, f: Failure, spared: iset<Text>)
    requires Good(s, spared) && Good(s, ALL) && !Breaks(s, f)
    requires f.EnterDir? || f.QueueDir? || f.RequeueDir? || f.NoteDir? || f.AnswerFails? || f.Removal? || f.RestartWalk?
    ensures Accounted(LeftBehind(s, f), spared)
  {
    if f.EnterDir? || f.QueueDir? || f.RequeueDir? || f.NoteDir? {
      DirFailuresForgetNothing(s, f, spared);
    } else if f.AnswerFails? {
      MergeFileKeepsGood(s, f.rel, f.st, spared);
    } else if f.Removal? {
      ErasuresKeepGood(s, f.done, spared);
    }
  }

  lemma DirFailuresForgetNothing(s: State, f: Failure, spared: iset<Text>)
    requires Good(s, spared) && Good(s, ALL) && (f.EnterDir? || f.QueueDir? || f.RequeueDir? || f.NoteDir?)
    ensures Accounted(LeftBehind(s, f), spared)
  {
    match f
    case EnterDir(rel, _) => RoomKeepsAccounts(s, DirCost(s.ix.lim, rel), spared);
    case QueueDir(rel, mtime) => QueueDirForgetsNothing(s, f, spared);
    case RequeueDir(rel, mtime) => WalkOneKeepsGood(s, rel, mtime, spared);
    case NoteDir(rel) => NoteFailure(s, rel, spared);
  }

  lemma QueueDirForgetsNothing(s: State, f: Failure, spared: iset<Text>)
    requires Good(s, spared) && f.QueueDir?
    ensures Accounted(MergeDirFails(s, f), spared)
  {
    MergeDirKeepsGood(s, f.rel, f.mtime, spared);
  }

  /** A failure of a request leaves every file accounted for, exactly unless it comes before a file is queued. */
  lemma FailureForgetsIff(s: State, f: Failure, spared: iset<Text>)
    requires Good(s, spared) && Good(s, ALL) && !Breaks(s, f)
    requires !OfSampler(f)
    ensures Accounted(LeftBehind(s, f), spared) <==> !Forgets(s, f, spared)
  {
    if OfMerge(f) {
      if f.rel !in s.ix.entries {
        NewFileForgets(s, f, spared);
      } else if f.QueueFile? {
        KnownFileForgets(s, f, spared);
      }
    } else {
      OtherFailuresForgetNothing(s, f, spared);
    }
  }

  ghost predicate TurnForgets(sys: System, turn: Turn) {
    turn.Fails? && turn.who.TheAsker? && Forgets(sys.s, turn.f, Spared(sys))
  }

  lemma FailureKeepsInv(sys: System, who: Thread, f: Failure)
    requires Inv(sys) && CanTurn(sys, Fails(who, f))
    requires !TurnBreaks(sys, Fails(who, f)) && !TurnForgets(sys, Fails(who, f))
    ensures Inv(Turned(sys, Fails(who, f)))
  {
    var t := LeftBehind(sys.s, f);
    FailureKeepsBooksIff(sys.s, f);
    LeftBehindFrame(sys.s, f);
    if who.TheAsker? {
      FailureForgetsIff(sys.s, f, Spared(sys));
      RequestFailureKeepsInv(sys, f, t);
    } else {
      CaughtKeepsInv(sys, who, t);
    }
  }

  lemma RequestFailureKeepsInv(sys: System, f: Failure, t: State)
    requires Inv(sys) && Good(t, Spared(sys)) && t.gen == (if f.RestartWalk? then sys.s.gen + 1 else sys.s.gen)
    requires f.RestartWalk? ==> t.ix.entries == map[]
    ensures Inv(Caught(sys, TheAsker, t, f.RestartWalk?))
  {
  }

  /** The walker and the sampler stop sampling when they fail. */
  lemma CaughtKeepsInv(sys: System, who: Thread, t: State)
    requires Inv(sys) && !who.TheAsker? && Good(t, ALL) && t.gen == sys.s.gen
    ensures Inv(Caught(sys, who, t, false))
  {
  }

  /** Whole sections, and failures that break no books and forget no file, keep the invariant. */
  lemma TurnKeepsInv(sys: System, turn: Turn)
    requires Inv(sys) && CanTurn(sys, turn) && !TurnBreaks(sys, turn) && !TurnForgets(sys, turn)
    ensures Inv(Turned(sys, turn))
  {
    match turn
    case Takes(step) => StepKeepsInv(sys, step);
    case Fails(who, f) => FailureKeepsInv(sys, who, f);
  }

  /** Turns of which none breaks the books or forgets a file. */
  ghost predicate HeedfulTurns(sys: System, turns: seq<Turn>)
    decreases |turns|
  {
    turns == [] ||
    (CanTurn(sys, turns[0]) &&
     (Good(sys.s, ALL) ==>
        !TurnBreaks(sys, turns[0]) && !TurnForgets(sys, turns[0]) && HeedfulTurns(Turned(sys, turns[0]), turns[1..])))
  }

  lemma {:induction false} HeedfulTurnsKeepInv(sys: System, turns: seq<Turn>)
    requires Inv(sys) && HeedfulTurns(sys, turns)
    ensures Turns(sys, turns) && Inv(AfterTurns(sys, turns))
    decreases |turns|
  {
    if turns != [] {
      TurnKeepsInv(sys, turns[0]);
      HeedfulTurnsKeepInv(Turned(sys, turns[0]), turns[1..]);
    }
  }

  /**
    * In every run, with memory running out wherever it may but at the two places that break the books and,
    * for a request, between a file's entry and its queue: unless it is stopping, each file of the index is
    * sampled, queued, in the sampler's hand for this generation, or sampling has stopped; and when the
    * status is complete, all files are sampled.
    */
  lemma NothingForgottenDespiteFailures(lim: Limits, turns: seq<Turn>, rel: Text)
    requires HeedfulTurns(Initial(lim), turns)
    ensures Good(Initial(lim).s, ALL) && Turns(Initial(lim), turns)
    ensures var end := AfterTurns(Initial(lim), turns);
      && (!end.stopping && rel in end.s.ix.entries ==>
            || end.s.ix.entries[rel].sampled
            || rel in end.s.files
            || end.sampler == Reading(rel, end.s.gen, None)
            || (end.s.flags.samplingStopped && end.s.flags.limitHit))
      && (!end.stopping && StatusOf(end).Complete? ==> end.s.ix.sampled == |end.s.ix.entries|)
  {
    InitialInv(lim);
    HeedfulTurnsKeepInv(Initial(lim), turns);
    var end := AfterTurns(Initial(lim), turns);
    SampledAtMostAll(end.s.ix.lim, end.s.ix.entries);
  }
}
