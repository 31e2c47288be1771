/** Which directories the walker has still to list, and whether any is forgotten. */
module ScannerDirs {
  import opened Bytes
  import opened ScannerState
  import opened ScannerBooks
  import opened ScannerTrees
  import opened ScannerRun
  import opened ScannerTheorems
  import opened ScannerFailures
  import opened ScannerCases

  /** The directory is known in t, and new or with another time since s. */
  ghost predicate Changed(s: State, t: State, d: Text) {
    d in t.ix.knownDirs && !(d in s.ix.knownDirs && s.ix.knownDirs[d].mtime == t.ix.knownDirs[d].mtime)
  }

  /**
    * From s to t what was queued stays so, and what changed is queued; or the walk ends for want of memory,
    * which the status tells.
    */
  ghost predicate Queues(s: State, t: State) {
    && (s.flags.limitHit ==> t.flags.limitHit)
    && (t.flags.indexFull ==> s.flags.indexFull || t.flags.limitHit)
    && (!t.flags.indexFull ==>
          && !s.flags.indexFull
          && (forall d :: d in s.dirs ==> d in t.dirs)
          && (forall d :: Changed(s, t, d) ==> d in t.dirs))
  }

  lemma QueuesBoth(s: State, t: State, u: State)
    requires Queues(s, t) && Queues(t, u)
    ensures Queues(s, u)
  {
    forall d | Changed(s, u, d) && !u.flags.indexFull
      ensures d in u.dirs
    {
      if !Changed(t, u, d) { assert Changed(s, t, d); }
    }
  }

  /** Queue and flags stay, and at most fewer directories are known. */
  ghost predicate LeavesDirs(s: State, t: State) {
    && t.dirs == s.dirs && t.flags.indexFull == s.flags.indexFull
    && (s.flags.limitHit ==> t.flags.limitHit)
    && (forall d :: d in t.ix.knownDirs ==> d in s.ix.knownDirs && t.ix.knownDirs[d] == s.ix.knownDirs[d])
  }

  lemma LeavesQueues(s: State, t: State)
    requires LeavesDirs(s, t)
    ensures Queues(s, t)
  {
  }

  // ---- The parts of the sections

  lemma RoomQueues(s: State, cost: nat)
    requires Books(s.ix)
    ensures var (t, room) := RoomInIndex(s, cost); Queues(s, t) && (room ==> LeavesDirs(s, t))
  {
  }

  lemma TouchLeavesDirs(s: State, rel: Text, st: Stat)
    requires rel in s.ix.entries
    ensures LeavesDirs(s, Touch(s, rel, st)) && LeavesDirs(s, TouchFails(s, rel, st))
  {
  }

  lemma MergeFileQueues(s: State, rel: Text, st: Stat)
    requires Books(s.ix)
    ensures Queues(s, MergeFile(s, rel, st).0)
    ensures MergeFile(s, rel, st).1 ==> LeavesDirs(s, MergeFile(s, rel, st).0)
  {
    if rel in s.ix.entries {
      TouchLeavesDirs(s, rel, st);
    } else {
      RoomQueues(s, EntryCost(s.ix.lim, rel));
      var (t, room) := RoomInIndex(s, EntryCost(s.ix.lim, rel));
      if room { TouchLeavesDirs(t.(ix := AddEntry(t.ix, rel, st)), rel, st); }
    }
  }

  lemma MergeDirQueues(s: State, rel: Text, mtime: int)
    requires Books(s.ix)
    ensures Queues(s, MergeDir(s, rel, mtime))
  {
    if rel !in s.ix.knownDirs { RoomQueues(s, DirCost(s.ix.lim, rel)); }
  }

  lemma {:induction false} MergeBatchQueues(s: State, dir: Text, batch: seq<DirEntry>)
    requires Good(s, ALL)
    ensures Queues(s, MergeBatch(s, dir, batch))
    decreases |batch|
  {
    if batch != [] {
      var rel, t := Child(dir, batch[0].name), MergeOne(s, dir, batch[0]);
      MergeFileQueues(s, rel, batch[0].stat);
      MergeDirQueues(s, rel, batch[0].stat.mtime);
      MergeBatchQueues(t, dir, batch[1..]);
      QueuesBoth(s, t, MergeBatch(s, dir, batch));
    }
  }

  lemma {:induction false} MergeEachQueues(s: State, changed: seq<(Text, Stat)>)
    requires Good(s, ALL)
    ensures Queues(s, MergeEach(s, changed))
    decreases |changed|
  {
    if changed != [] {
      MergeFileKeepsGood(s, changed[0].0, changed[0].1, ALL);
      var t := MergeFile(s, changed[0].0, changed[0].1).0;
      MergeFileQueues(s, changed[0].0, changed[0].1);
      MergeEachQueues(t, changed[1..]);
      QueuesBoth(s, t, MergeEach(s, changed));
    }
  }

  lemma EndListingQueues(s: State, dir: Text, gen: nat, start: nat, outcome: Outcome)
    requires Books(s.ix)
    ensures Queues(s, EndListing(s, dir, gen, start, outcome))
  {
    if gen == s.gen && outcome.Denied? && dir !in s.ix.unreadable { RoomQueues(s, DirCost(s.ix.lim, dir)); }
  }

  lemma HoldLeavesDirs(s: State, rel: Text, st: Stat, p: Preview)
    requires Books(s.ix) && rel in s.ix.entries
    ensures LeavesDirs(s, HoldRequested(s, rel, st, p))
  {
  }

  lemma StoreReadQueues(s: State, rel: Text, gen: nat, asked: bool, read: Read)
    requires Good(s, ALL)
    ensures Queues(s, StoreRead(s, rel, gen, asked, read))
  {
    if asked && read.Opened? && gen == s.gen {
      MergeFileKeepsGood(s, rel, read.st, ALL);
      MergeFileQueues(s, rel, read.st);
      var (t, merged) := MergeFile(s, rel, read.st);
      if merged && rel in t.ix.entries {
        ForgetPreviewKeepsBooks(t.ix, rel);
        HoldLeavesDirs(t.(ix := ForgetPreview(t.ix, rel)), rel, read.st, read.preview);
      }
    }
  }

  lemma {:induction false} EraseEachLeavesDirs(x: Index, rels: seq<Text>)
    ensures EraseEach(x, rels).knownDirs == x.knownDirs
    decreases |rels|
  {
    if rels != [] { EraseEachLeavesDirs(if rels[0] in x.entries then Erase(x, rels[0]) else x, rels[1..]); }
  }

  /** Fewer directories are known, the others as before. */
  ghost predicate FewerDirs(x: Index, y: Index) {
    forall d :: d in y.knownDirs ==> d in x.knownDirs && y.knownDirs[d] == x.knownDirs[d]
  }

  lemma {:induction false} EraseTreeEachLeavesDirs(x: Index, rels: seq<Text>)
    ensures FewerDirs(x, EraseTreeEach(x, rels))
    decreases |rels|
  {
    if rels != [] { EraseTreeEachLeavesDirs(EraseTree(x, rels[0]), rels[1..]); }
  }

  lemma {:induction false} WalkAgainQueues(s: State, changed: seq<(Text, int)>)
    ensures Queues(s, WalkAgain(s, changed))
    decreases |changed|
  {
    if changed != [] {
      var t := WalkOne(s, changed[0].0, changed[0].1);
      WalkAgainQueues(t, changed[1..]);
      QueuesBoth(s, t, WalkAgain(s, changed));
    }
  }

  lemma AnswerQueues(sys: System, rel: Text, st: Stat)
    requires Good(sys.s, ALL)
    ensures Queues(sys.s, AnswerFile(sys, rel, st).s)
  {
    var t := MergeFile(sys.s, rel, st).0;
    MergeFileQueues(sys.s, rel, st);
    LeavesQueues(t, AnswerFrom(sys, t, rel).s);
    QueuesBoth(sys.s, t, AnswerFrom(sys, t, rel).s);
  }

  lemma RecheckQueues(s: State, gone: seq<Text>, changed: seq<(Text, int)>)
    ensures Queues(s, WalkAgain(s.(ix := EraseTreeEach(s.ix, gone)), changed))
  {
    var t := s.(ix := EraseTreeEach(s.ix, gone));
    EraseTreeEachLeavesDirs(s.ix, gone);
    LeavesQueues(s, t);
    WalkAgainQueues(t, changed);
    QueuesBoth(s, t, WalkAgain(t, changed));
  }

  lemma RelistQueues(s: State, gone: seq<Text>, changed: seq<(Text, Stat)>)
    requires Good(s, ALL)
    ensures Queues(s, Relisted(s, gone, changed))
  {
    var t := s.(ix := EraseEach(s.ix, gone));
    EraseEachKeepsGood(s, gone, ALL);
    EraseEachLeavesDirs(s.ix, gone);
    LeavesQueues(s, t);
    MergeEachQueues(t, changed);
    QueuesBoth(s, t, MergeEach(t, changed));
  }

  /** Every section but those that take a directory, and start over. */
  lemma StepQueues(sys: System, step: Step)
    requires Good(sys.s, ALL) && Enabled(sys, step) && !step.WalkTake? && !step.Refresh?
    ensures Queues(sys.s, Next(sys, step).s)
  {
    match step
    case WalkBatch(batch) => MergeBatchQueues(sys.s, sys.walker.dir, batch);
    case AskBatch(batch) => MergeBatchQueues(sys.s, sys.asker.dir, batch);
    case WalkEnd(o) => EndListingQueues(sys.s, sys.walker.dir, sys.walker.gen, sys.walker.start, o);
    case AskEnd(o) => EndListingQueues(sys.s, sys.asker.dir, sys.asker.gen, sys.asker.start, o);
    case SampleDone(read) => StoreReadQueues(sys.s, sys.sampler.rel, sys.sampler.gen, sys.sampler.request.Some?, read);
    case AskFile(rel, st) => AnswerQueues(sys, rel, st);
    case AskRecheck(gone, changed) => RecheckQueues(sys.s, gone, changed);
    case AskRelist(gone, changed) => RelistQueues(sys.s, gone, changed);
    case _ =>
  }

  // ---- Failures

  /** The directory is known, or known with another time, and is not queued. */
  ghost predicate DropsDir(s: State, f: Failure)
    requires Good(s, ALL)
  {
    match f
    case QueueDir(rel, mtime) =>
      && !s.flags.indexFull && rel !in s.dirs
      && if rel in s.ix.knownDirs then s.ix.knownDirs[rel].mtime != mtime
         else Slashes(rel) < MAX_WALK_DEPTH && RoomInIndex(s, DirCost(s.ix.lim, rel)).1
    case RequeueDir(rel, mtime) =>
      !s.flags.indexFull && rel !in s.dirs && rel in s.ix.knownDirs && s.ix.knownDirs[rel].mtime != mtime
    case _ => false
  }

  lemma FileFailureQueues(s: State, f: Failure)
    requires Good(s, ALL) && OfMerge(f)
    ensures Queues(s, MergeFileFails(s, f))
  {
    if f.rel in s.ix.entries {
      TouchLeavesDirs(s, f.rel, f.st);
    } else {
      RoomQueues(s, EntryCost(s.ix.lim, f.rel));
      var t := RoomInIndex(s, EntryCost(s.ix.lim, f.rel)).0;
      TouchLeavesDirs(t.(ix := AddEntry(t.ix, f.rel, f.st)), f.rel, f.st);
    }
  }

  lemma KnownDirFailure(s: State, rel: Text, mtime: int)
    requires Good(s, ALL) && rel in s.ix.knownDirs
    ensures Queues(s, MergeDirFails(s, QueueDir(rel, mtime))) <==> !DropsDir(s, QueueDir(rel, mtime))
  {
    var t := MergeDirFails(s, QueueDir(rel, mtime));
    assert t == s.(ix := s.ix.(knownDirs := s.ix.knownDirs[rel := KnownDir(mtime, s.stamp)]));
    assert Changed(s, t, rel) <==> s.ix.knownDirs[rel].mtime != mtime;
  }

  lemma AddedUnqueued(s: State, t: State, rel: Text, d: KnownDir)
    requires LeavesDirs(s, t) && rel !in s.ix.knownDirs && !s.flags.indexFull
    ensures Queues(s, t.(ix := AddDir(t.ix, rel, d))) <==> rel in s.dirs
  {
    var u := t.(ix := AddDir(t.ix, rel, d));
    assert Changed(s, u, rel) && forall k :: k != rel ==> !Changed(s, u, k);
  }

  lemma NewDirLeft(s: State, rel: Text, mtime: int)
    requires Books(s.ix) && rel !in s.ix.knownDirs
    ensures var t := MergeDirFails(s, QueueDir(rel, mtime)); var (u, room) := RoomInIndex(s, DirCost(s.ix.lim, rel));
      t == if s.flags.indexFull then s
           else if Slashes(rel) >= MAX_WALK_DEPTH then s.(flags := s.flags.(tooDeep := true))
           else if room then u.(ix := AddDir(u.ix, rel, KnownDir(mtime, u.stamp))) else u
  {
  }

  lemma NewDirFailure(s: State, rel: Text, mtime: int)
    requires Good(s, ALL) && rel !in s.ix.knownDirs
    ensures Queues(s, MergeDirFails(s, QueueDir(rel, mtime))) <==> !DropsDir(s, QueueDir(rel, mtime))
  {
    RoomQueues(s, DirCost(s.ix.lim, rel));
    NewDirLeft(s, rel, mtime);
    var (t, room) := RoomInIndex(s, DirCost(s.ix.lim, rel));
    if room && !s.flags.indexFull { AddedUnqueued(s, t, rel, KnownDir(mtime, t.stamp)); }
  }

  lemma RequeueFailure(s: State, rel: Text, mtime: int)
    requires Good(s, ALL)
    ensures Queues(s, LeftBehind(s, RequeueDir(rel, mtime))) <==> !DropsDir(s, RequeueDir(rel, mtime))
  {
    var t := LeftBehind(s, RequeueDir(rel, mtime));
    if DropsDir(s, RequeueDir(rel, mtime)) { assert Changed(s, t, rel); }
  }

  lemma {:induction false} EraseSomeLeavesDirs(x: Index, done: seq<Erasure>)
    ensures FewerDirs(x, EraseSome(x, done))
    decreases |done|
  {
    if done != [] { EraseSomeLeavesDirs(EraseOne(x, done[0]), done[1..]); }
  }

  /** A failure of a request leaves queued what was and what changed, exactly unless it is the queue's own. */
  lemma FailureDropsDirIff(s: State, f: Failure)
    requires Good(s, ALL) && !OfSampler(f) && !f.RestartWalk?
    ensures Queues(s, LeftBehind(s, f)) <==> !DropsDir(s, f)
  {
    match f
    case QueueDir(rel, mtime) =>
      if rel in s.ix.knownDirs {
        KnownDirFailure(s, rel, mtime);
      } else {
        NewDirFailure(s, rel, mtime);
      }
    case RequeueDir(rel, mtime) => RequeueFailure(s, rel, mtime);
    case EnterDir(rel, _) => RoomQueues(s, DirCost(s.ix.lim, rel));
    case NoteDir(rel) => RoomQueues(s, DirCost(s.ix.lim, rel));
    case AnswerFails(rel, st) => MergeFileQueues(s, rel, st);
    case Removal(done) => EraseSomeLeavesDirs(s.ix, done);
    case _ => FileFailureQueues(s, f);
  }

  lemma SampledFailureQueues(s: State, rel: Text, st: Stat, p: Preview, listed: bool)
    requires Good(s, ALL)
    ensures LeavesDirs(s, StoreSampledFails(s, rel, st, p, listed))
  {
  }

  lemma HoldFailureLeavesDirs(s: State, rel: Text, st: Stat, p: Preview, listed: bool)
    requires Books(s.ix) && rel in s.ix.entries
    ensures LeavesDirs(s, HoldRequestedFails(s, rel, st, p, listed))
  {
  }

  lemma RequestedFailureQueues(s: State, rel: Text, st: Stat, p: Preview, listed: bool)
    requires Good(s, ALL)
    ensures Queues(s, StoreRequestedFails(s, rel, st, p, listed))
  {
    MergeFileKeepsGood(s, rel, st, ALL);
    MergeFileQueues(s, rel, st);
    MergedStat(s, rel, st);
    var (t, merged) := MergeFile(s, rel, st);
    if merged {
      ForgetPreviewKeepsBooks(t.ix, rel);
      HoldFailureLeavesDirs(t.(ix := ForgetPreview(t.ix, rel)), rel, st, p, listed);
    }
  }

  lemma SamplerFailureQueues(s: State, f: Failure)
    requires Good(s, ALL) && (OfSampler(f) || OfMerge(f))
    ensures Queues(s, LeftBehind(s, f))
  {
    match f
    case CopySampled(rel, st, p) => SampledFailureQueues(s, rel, st, p, false);
    case ListSampled(rel, st, p) => SampledFailureQueues(s, rel, st, p, true);
    case CopyRequested(rel, st, p) => RequestedFailureQueues(s, rel, st, p, false);
    case ListRequested(rel, st, p) => RequestedFailureQueues(s, rel, st, p, true);
    case GiveAnswer(rel, st, p) => StoreReadQueues(s, rel, s.gen, true, Opened(st, p));
    case _ => FileFailureQueues(s, f);
  }

  // ---- Runs

  ghost predicate TurnDropsDir(sys: System, turn: Turn)
    requires Good(sys.s, ALL)
  {
    turn.Fails? && turn.who.TheAsker? && (turn.f.RestartWalk? || DropsDir(sys.s, turn.f))
  }

  lemma TurnQueues(sys: System, turn: Turn)
    requires Good(sys.s, ALL) && CanTurn(sys, turn) && !TurnDropsDir(sys, turn)
    requires turn != Takes(WalkTake) && turn != Takes(Refresh)
    ensures Queues(sys.s, Turned(sys, turn).s)
  {
    match turn
    case Takes(step) => StepQueues(sys, step);
    case Fails(who, f) =>
      match who
      case TheWalker =>
      case TheSampler =>
        var t := LeftBehind(sys.s, f);
        SamplerFailureQueues(sys.s, f);
        LeavesQueues(t, StopSampling(t));
        QueuesBoth(sys.s, t, StopSampling(t));
      case TheAsker => FailureDropsDirIff(sys.s, f);
  }

  /**
    * The directories that are new, or got another time, since the walker last took them: the root at the
    * start and at each refresh, and then what the turns change.
    */
  ghost function DueAfter(sys: System, turn: Turn, due: iset<Text>): iset<Text>
    requires Good(sys.s, ALL) && CanTurn(sys, turn)
  {
    if turn == Takes(WalkTake) then due - iset{sys.s.dirs[0]}
    else if turn == Takes(Refresh) then iset{[]}
    else due + (iset d | Changed(sys.s, Turned(sys, turn).s, d))
  }

  ghost function DueBy(sys: System, turns: seq<Turn>, due: iset<Text>): iset<Text>
    requires Good(sys.s, ALL) && Turns(sys, turns)
    decreases |turns|
  {
    if turns == [] then due else
      TurnKeepsBooks(sys, turns[0]);
      DueBy(Turned(sys, turns[0]), turns[1..], DueAfter(sys, turns[0], due))
  }

  ghost predicate NoneDropsDir(sys: System, turns: seq<Turn>)
    requires Good(sys.s, ALL) && Turns(sys, turns)
    decreases |turns|
  {
    turns == [] ||
    (!TurnDropsDir(sys, turns[0]) &&
     (TurnKeepsBooks(sys, turns[0]); NoneDropsDir(Turned(sys, turns[0]), turns[1..])))
  }

  /** What is due is queued, or the walk has ended for want of memory. */
  ghost predicate DueQueued(s: State, due: iset<Text>) {
    if s.flags.indexFull then s.flags.limitHit else forall d :: d in due ==> d in s.dirs
  }

  lemma TurnKeepsDue(sys: System, turn: Turn, due: iset<Text>)
    requires Good(sys.s, ALL) && CanTurn(sys, turn) && !TurnDropsDir(sys, turn) && DueQueued(sys.s, due)
    ensures DueQueued(Turned(sys, turn).s, DueAfter(sys, turn, due))
  {
    if turn == Takes(WalkTake) {
      assert sys.s.dirs == [sys.s.dirs[0]] + sys.s.dirs[1..];
    } else if turn != Takes(Refresh) {
      TurnQueues(sys, turn);
    }
  }

  lemma {:induction false} TurnsKeepDue(sys: System, turns: seq<Turn>, due: iset<Text>)
    requires Good(sys.s, ALL) && Turns(sys, turns) && NoneDropsDir(sys, turns) && DueQueued(sys.s, due)
    ensures DueQueued(AfterTurns(sys, turns).s, DueBy(sys, turns, due))
    decreases |turns|
  {
    if turns != [] {
      TurnKeepsBooks(sys, turns[0]);
      TurnKeepsDue(sys, turns[0], due);
      TurnsKeepDue(Turned(sys, turns[0]), turns[1..], DueAfter(sys, turns[0], due));
    }
  }

  /**
    * In every run, with memory running out wherever it may but at the places that break the books and, for a
    * request, at the queue of directories: each directory that is new or changed since the walker last took
    * it is queued, or the walk has ended for want of memory; and when the status is complete, none is due.
    */
  lemma NoDirIsForgotten(lim: Limits, turns: seq<Turn>)
    requires Turns(Initial(lim), turns)
    ensures Good(Initial(lim).s, ALL)
    ensures NoneDropsDir(Initial(lim), turns) ==>
      var end, due := AfterTurns(Initial(lim), turns), DueBy(Initial(lim), turns, iset{[]});
      && (forall d :: d in due ==> d in end.s.dirs || (end.s.flags.indexFull && end.s.flags.limitHit))
      && (StatusOf(end).Complete? ==> due == iset{})
  {
    InitialInv(lim);
    if NoneDropsDir(Initial(lim), turns) { TurnsKeepDue(Initial(lim), turns, iset{[]}); }
  }

  /**
    * After the scan of an empty root a request meets a directory, and memory runs out as it is queued: it is
    * known and will not be walked, and the status is "complete".
    */
  lemma DirCanBeForgotten(lim: Limits, rel: Text, mtime: int)
    requires Slashes(rel) < MAX_WALK_DEPTH && DirCost(lim, rel) <= lim.maxMemory
    ensures Runs(Initial(lim), EmptyScan())
    ensures var sys := After(Initial(lim), EmptyScan());
      var turn := Fails(TheAsker, QueueDir(rel, mtime));
      && Good(sys.s, ALL) && CanTurn(sys, turn) && !TurnBreaks(sys, turn)
      && var end := Turned(sys, turn);
      && StatusOf(end).Complete? && rel in end.s.ix.knownDirs && rel !in sys.s.ix.knownDirs
  {
    EmptyScanEnds(lim);
    var sys := After(Initial(lim), EmptyScan());
    RoomWithoutEviction(sys.s, DirCost(lim, rel));
  }
}
