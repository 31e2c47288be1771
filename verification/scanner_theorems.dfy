/** What holds of the scanner in every run. */
module ScannerTheorems {
  import opened Bytes
  import opened ScannerState
  import opened ScannerBooks
  import opened ScannerTrees
  import opened ScannerRun

  // ---- Every step keeps the invariant

  lemma WalkKeepsInv(sys: System, step: Step)
    requires Inv(sys) && Enabled(sys, step)
    requires step.WalkTake? || step.WalkStart? || step.WalkRest? || step.WalkFail?
    ensures Inv(Next(sys, step))
  {
  }

  lemma BatchKeepsGood(sys: System, l: Lister, batch: seq<DirEntry>, walker: bool)
    requires Inv(sys) && l.Listing?
    ensures Good(BatchOf(sys, l, batch, walker).0, Spared(sys))
  {
    MergeBatchKeepsGood(sys.s, l.dir, batch, Spared(sys));
  }

  lemma BatchesKeepInv(sys: System, step: Step)
    requires Inv(sys) && Enabled(sys, step) && (step.WalkBatch? || step.AskBatch?)
    ensures Inv(Next(sys, step))
  {
    if step.WalkBatch? {
      BatchKeepsGood(sys, sys.walker, step.batch, true);
    } else {
      BatchKeepsGood(sys, sys.asker, step.entries, false);
    }
  }

  lemma EndsKeepInv(sys: System, step: Step)
    requires Inv(sys) && Enabled(sys, step) && (step.WalkEnd? || step.AskEnd?)
    ensures Inv(Next(sys, step))
  {
    if step.WalkEnd? {
      EndListingKeepsGood(sys.s, sys.walker.dir, sys.walker.gen, sys.walker.start, step.outcome, Spared(sys));
    } else {
      EndListingKeepsGood(sys.s, sys.asker.dir, sys.asker.gen, sys.asker.start, step.how, Spared(sys));
    }
  }

  lemma TakesKeepInv(sys: System, step: Step)
    requires Inv(sys) && Enabled(sys, step)
    requires step.SampleTakeRequest? || step.SampleTakeFile? || step.SampleFail?
    ensures Inv(Next(sys, step))
  {
    if step.SampleTakeFile? {
      var rest := sys.s.files[1..];
      assert sys.s.files == [sys.s.files[0]] + rest;
    }
  }

  lemma SampleDoneKeepsInv(sys: System, read: Read)
    requires Inv(sys) && sys.sampler.Reading?
    ensures Inv(Next(sys, SampleDone(read)))
  {
    if !sys.stopping {
      var hand := sys.sampler;
      assert iset{} + iset{hand.rel} == iset{hand.rel};
      StoreReadKeepsGood(sys.s, hand.rel, hand.gen, hand.request.Some?, read, iset{});
    }
  }

  lemma AskKeepsInv(sys: System, step: Step)
    requires Inv(sys) && Enabled(sys, step)
    requires step.AskDir? || step.AskStart? || step.AskRest? || step.Refresh? || step.Stop?
    ensures Inv(Next(sys, step))
  {
  }

  lemma RequestForKeepsDesk(desk: Desk, rel: Text)
    requires DeskOk(desk)
    ensures DeskOk(RequestFor(desk, rel))
    ensures IdsOk(desk) ==> IdsOk(RequestFor(desk, rel))
  {
  }

  /** The parts of the invariant that are about the requests and the sampler's hand. */
  lemma AnswerFromKeepsDesk(sys: System, t: State, rel: Text)
    requires DeskOk(sys.desk) && IdsOk(sys.desk) && HandOk(sys)
    ensures var r := AnswerFrom(sys, t, rel); DeskOk(r.desk) && IdsOk(r.desk) && HandOk(r)
  {
    RequestForKeepsDesk(sys.desk, rel);
  }

  lemma AnswerFromKeepsGood(sys: System, t: State, rel: Text, spared: iset<Text>)
    requires Good(t, spared)
    ensures Good(AnswerFrom(sys, t, rel).s, spared) && AnswerFrom(sys, t, rel).s.gen == t.gen
  {
    if Served(t, rel) { PromoteKeepsBooks(t.ix, rel); }
  }

  lemma AnswerFromKeepsInv(sys: System, t: State, rel: Text)
    requires Inv(sys) && Good(t, Spared(sys)) && t.gen == sys.s.gen
    ensures Inv(AnswerFrom(sys, t, rel))
  {
    AnswerFromKeepsDesk(sys, t, rel);
    AnswerFromKeepsGood(sys, t, rel, Spared(sys));
    var r := AnswerFrom(sys, t, rel);
    assert r == sys.(s := r.s, desk := r.desk);
  }

  lemma AskFileKeepsInv(sys: System, rel: Text, st: Stat)
    requires Inv(sys) && sys.asker.AtRest?
    ensures Inv(Next(sys, AskFile(rel, st)))
  {
    var t := MergeFile(sys.s, rel, st).0;
    MergeFileKeepsGood(sys.s, rel, st, Spared(sys));
    AnswerFromKeepsInv(sys, t, rel);
    assert Next(sys, AskFile(rel, st)) == AnswerFrom(sys, t, rel);
  }

  lemma ChangesKeepInv(sys: System, step: Step)
    requires Inv(sys) && Enabled(sys, step) && (step.AskErase? || step.AskRecheck? || step.AskRelist?)
    ensures Inv(Next(sys, step))
  {
    match step
    case AskErase(rel) =>
      RemoveKeepsGood(sys.s, TreeIn(sys.s.ix.entries.Keys, rel), TreeIn(sys.s.ix.knownDirs.Keys, rel),
                      TreeIn(sys.s.ix.unreadable, rel), Spared(sys));
    case AskRecheck(goneDirs, changedDirs) =>
      EraseTreeEachKeepsGood(sys.s, goneDirs, Spared(sys));
      WalkAgainKeepsGood(sys.s.(ix := EraseTreeEach(sys.s.ix, goneDirs)), changedDirs, Spared(sys));
    case AskRelist(goneFiles, changedFiles) =>
      EraseEachKeepsGood(sys.s, goneFiles, Spared(sys));
      EraseEachKeepsGood(sys.s, goneFiles, ALL);
      MergeEachKeepsGood(sys.s.(ix := EraseEach(sys.s.ix, goneFiles)), changedFiles, Spared(sys));
  }

  lemma StepKeepsInv(sys: System, step: Step)
    requires Inv(sys) && Enabled(sys, step)
    ensures Inv(Next(sys, step))
  {
    match step
    case WalkBatch(_) => BatchesKeepInv(sys, step);
    case AskBatch(_) => BatchesKeepInv(sys, step);
    case WalkEnd(_) => EndsKeepInv(sys, step);
    case AskEnd(_) => EndsKeepInv(sys, step);
    case SampleTakeRequest => TakesKeepInv(sys, step);
    case SampleTakeFile => TakesKeepInv(sys, step);
    case SampleFail => TakesKeepInv(sys, step);
    case SampleDone(read) => SampleDoneKeepsInv(sys, read);
    case AskFile(rel, st) => AskFileKeepsInv(sys, rel, st);
    case AskErase(_) => ChangesKeepInv(sys, step);
    case AskRecheck(_, _) => ChangesKeepInv(sys, step);
    case AskRelist(_, _) => ChangesKeepInv(sys, step);
    case WalkTake => WalkKeepsInv(sys, step);
    case WalkStart => WalkKeepsInv(sys, step);
    case WalkRest => WalkKeepsInv(sys, step);
    case WalkFail => WalkKeepsInv(sys, step);
    case _ => AskKeepsInv(sys, step);
  }

  // ---- Runs

  /** The steps can be taken one after the other from sys, in a state the invariant holds of. */
  ghost predicate Runs(sys: System, steps: seq<Step>)
    decreases |steps|
  {
    Inv(sys) && (steps == [] || (Enabled(sys, steps[0]) && Runs(Next(sys, steps[0]), steps[1..])))
  }

  ghost function After(sys: System, steps: seq<Step>): (end: System)
    requires Runs(sys, steps)
    ensures Inv(end) && end.s.ix.lim == sys.s.ix.lim && end.s.gen >= sys.s.gen
    ensures sys.s.ix.lost == 0 ==> end.s.ix.lost == 0
    decreases |steps|
  {
    if steps == [] then sys else After(Next(sys, steps[0]), steps[1..])
  }

  lemma InitialInv(lim: Limits)
    ensures Inv(Initial(lim)) && Runs(Initial(lim), [])
  {
  }

  /** Steps that can be taken when their turn comes, whatever state the ones before them left. */
  ghost predicate Schedule(sys: System, steps: seq<Step>)
    decreases |steps|
  {
    steps == [] || (Enabled(sys, steps[0]) && (Good(sys.s, ALL) ==> Schedule(Next(sys, steps[0]), steps[1..])))
  }

  /** Every schedule is a run: the invariant holds all along. */
  lemma {:induction false} SchedulesRun(sys: System, steps: seq<Step>)
    requires Inv(sys) && Schedule(sys, steps)
    ensures Runs(sys, steps)
    decreases |steps|
  {
    if steps != [] {
      StepKeepsInv(sys, steps[0]);
      SchedulesRun(Next(sys, steps[0]), steps[1..]);
    }
  }

  /** The invariant ends no run: whatever step a state allows goes on with it. */
  lemma {:induction false} RunsGoOn(sys: System, steps: seq<Step>, step: Step)
    requires Runs(sys, steps) && Enabled(After(sys, steps), step)
    ensures Runs(sys, steps + [step]) && After(sys, steps + [step]) == Next(After(sys, steps), step)
    decreases |steps|
  {
    if steps == [] {
      StepKeepsInv(sys, step);
      assert (steps + [step])[1..] == [];
    } else {
      RunsGoOn(Next(sys, steps[0]), steps[1..], step);
      assert (steps + [step])[1..] == steps[1..] + [step];
    }
  }

  // ---- The ledger and its bound

  /**
    * In every state of every run: theBytes is what the entries, the known and the unreadable
    * directories and the held previews are charged, thePreviewBytes is the previews' part of it,
    * theSampled counts the sampled entries, theLru lists the entries with previews once each, and
    * the whole stays within the limit.
    */
  lemma LedgerInEveryRun(lim: Limits, steps: seq<Step>)
    requires Schedule(Initial(lim), steps)
    ensures Runs(Initial(lim), steps)
    ensures var x := After(Initial(lim), steps).s.ix; var t := EntryTotals(lim, x.entries);
      && x.bytes == t.index + t.previews + DirTotal(lim, x.knownDirs.Keys) + DirTotal(lim, x.unreadable)
      && x.previewBytes == t.previews && x.sampled == t.sampled
      && 0 <= x.previewBytes <= x.bytes <= lim.maxMemory
      && NoDup(x.lru) && (forall k :: k in x.lru <==> k in x.entries && x.entries[k].held.Some?)
  {
    SchedulesRun(Initial(lim), steps);
    NoUnderflow(After(Initial(lim), steps).s.ix);
  }

  // ---- Nothing is forgotten

  datatype Status = Running | MemoryLimit | Complete

  ghost predicate Idle(sys: System) {
    sys.s.dirs == [] && sys.walker.AtRest? && sys.s.files == [] && sys.desk.requests == [] && sys.sampler.Free?
  }

  ghost function StatusOf(sys: System): Status {
    if !Idle(sys) then Running else if sys.s.flags.limitHit then MemoryLimit else Complete
  }

  /**
    * In every run, unless it is stopping: each file of the index is sampled, or queued, or in the
    * sampler's hand for this generation, or sampling has stopped for want of memory.
    */
  lemma NothingIsForgotten(lim: Limits, steps: seq<Step>, rel: Text)
    requires Schedule(Initial(lim), steps)
    ensures Runs(Initial(lim), steps)
    ensures var end := After(Initial(lim), steps);
      !end.stopping && rel in end.s.ix.entries ==>
        || end.s.ix.entries[rel].sampled
        || rel in end.s.files
        || end.sampler == Reading(rel, end.s.gen, None)
        || (end.s.flags.samplingStopped && end.s.flags.limitHit)
  {
    SchedulesRun(Initial(lim), steps);
  }

  /** When the status says that the scan is complete, files_sampled equals files_found. */
  lemma CompleteMeansAllSampled(lim: Limits, steps: seq<Step>)
    requires Schedule(Initial(lim), steps)
    ensures Runs(Initial(lim), steps)
    ensures var end := After(Initial(lim), steps);
      !end.stopping && StatusOf(end).Complete? ==>
        && end.s.ix.sampled == |end.s.ix.entries|
        && forall k :: k in end.s.ix.entries ==> end.s.ix.entries[k].sampled
  {
    SchedulesRun(Initial(lim), steps);
    var end := After(Initial(lim), steps);
    SampledAtMostAll(end.s.ix.lim, end.s.ix.entries);
  }

  // ---- Refresh

  /** The generation in which what a step ends or goes on with was begun. */
  ghost function BegunIn(sys: System, step: Step): Option<nat>
    requires Enabled(sys, step)
  {
    match step
    case WalkStart => Some(sys.walker.gen)
    case WalkBatch(_) => Some(sys.walker.gen)
    case WalkEnd(_) => Some(sys.walker.gen)
    case AskStart => Some(sys.asker.gen)
    case AskBatch(_) => Some(sys.asker.gen)
    case AskEnd(_) => Some(sys.asker.gen)
    case SampleDone(_) => Some(sys.sampler.gen)
    case _ => None
  }

  /** The start of a listing takes a new stamp in any generation; nothing else of another one does anything. */
  lemma StaleStepChangesNothing(sys: System, step: Step)
    requires Inv(sys) && Enabled(sys, step)
    requires BegunIn(sys, step).Some? && BegunIn(sys, step).value != sys.s.gen
    ensures Next(sys, step).s ==
      if step.WalkStart? || step.AskStart? then sys.s.(stamp := sys.s.stamp + 1) else sys.s
  {
  }

  /**
    * However the run goes on after a refresh, no section of a listing and no read that was begun before
    * it changes an entry, a directory, a preview, a queue, a flag or a counter: a listing that starts
    * late takes the next stamp, and that is all.
    */
  lemma RefreshIsolates(before: System, steps: seq<Step>, step: Step)
    requires Inv(before) && Enabled(before, Refresh)
    requires Runs(Next(before, Refresh), steps)
    requires var sys := After(Next(before, Refresh), steps);
      && Enabled(sys, step) && BegunIn(sys, step).Some? && BegunIn(sys, step).value <= before.s.gen
    ensures var sys := After(Next(before, Refresh), steps);
      && Next(sys, step).s == sys.s.(stamp := Next(sys, step).s.stamp)
      && (!step.WalkStart? && !step.AskStart? ==> Next(sys, step).s == sys.s)
  {
    var sys := After(Next(before, Refresh), steps);
    assert sys.s.gen >= before.s.gen + 1;
    StaleStepChangesNothing(sys, step);
  }

  /** What was in flight at a refresh was begun in its generation or an earlier one. */
  lemma InFlightIsOld(before: System)
    requires Inv(before) && Enabled(before, Refresh)
    ensures var sys := Next(before, Refresh);
      && (!sys.walker.AtRest? ==> sys.walker.gen < sys.s.gen)
      && (sys.sampler.Reading? ==> sys.sampler.gen < sys.s.gen)
  {
  }

  // ---- Previews match the files they are shown for

  /** A preview served from memory was read from the version of the file the request itself saw. */
  lemma ServedPreviewMatches(sys: System, rel: Text, st: Stat)
    requires Inv(sys) && sys.asker.AtRest?
    requires !FormatOf(rel).NoFormat? && Served(MergeFile(sys.s, rel, st).0, rel)
    ensures var x := Next(sys, AskFile(rel, st)).s.ix;
      && rel in x.entries && x.entries[rel].held.Some? && x.entries[rel].held.value.madeFrom == st
      && x.lru != [] && x.lru[0] == rel
  {
    var t := MergeFile(sys.s, rel, st).0;
    MergeFileKeepsGood(sys.s, rel, st, Spared(sys));
    MergedStat(sys.s, rel, st);
    ServedIsCoherent(t, rel);
    assert Next(sys, AskFile(rel, st)) == AnswerFrom(sys, t, rel);
    assert AnswerFrom(sys, t, rel).s.ix == Promote(t.ix, rel);
  }

  lemma ServedIsCoherent(t: State, rel: Text)
    requires Coherent(t.ix) && Served(t, rel)
    ensures t.ix.entries[rel].held.value.madeFrom == t.ix.entries[rel].stat
  {
    assert EntryOk(t.ix.lim, t.ix.entries[rel]);
  }

  function FieldsOf(e: Entry): Text {
    if e.held.Some? then e.held.value.preview.fields else []
  }

  /** What a listing shows of an entry it copied, once it has seen the file's status. */
  function FieldsShown(copied: Entry, now: Stat): Text {
    if copied.stat == now then FieldsOf(copied) else []
  }

  /** The fields in a listing come from the version of the file that the listing saw. */
  lemma ListedFieldsMatch(lim: Limits, steps: seq<Step>, rel: Text, now: Stat)
    requires Schedule(Initial(lim), steps)
    ensures Runs(Initial(lim), steps)
    ensures var es := After(Initial(lim), steps).s.ix.entries;
      rel in es && FieldsShown(es[rel], now) != [] ==>
        && es[rel].held.Some? && es[rel].held.value.madeFrom == now
        && FieldsShown(es[rel], now) == es[rel].held.value.preview.fields
    ensures var es := After(Initial(lim), steps).s.ix.entries;
      rel in es && es[rel].held.Some? && es[rel].stat == now ==>
        FieldsShown(es[rel], now) == es[rel].held.value.preview.fields
  {
    SchedulesRun(Initial(lim), steps);
    var es := After(Initial(lim), steps).s.ix.entries;
    if rel in es { assert EntryOk(lim, es[rel]); }
  }

  // ---- Requests and their answers

  /** In every run a file has at most one request waiting or being read, few enough wait, and ids are their own. */
  lemma OneRequestPerFile(lim: Limits, steps: seq<Step>)
    requires Schedule(Initial(lim), steps)
    ensures Runs(Initial(lim), steps)
    ensures DeskOk(After(Initial(lim), steps).desk) && IdsOk(After(Initial(lim), steps).desk)
  {
    SchedulesRun(Initial(lim), steps);
  }

  /** The only answer a step gives is of a read, to the request it was made for; others stay as they are. */
  lemma AnswersAreOfTheirFiles(sys: System, step: Step)
    requires Inv(sys) && Enabled(sys, step)
    ensures var before, after := sys.desk.answers, Next(sys, step).desk.answers;
      && (forall id :: id in before ==> id in after && after[id] == before[id])
      && (forall id :: id in after && id !in before ==>
            && step.SampleDone? && sys.sampler.Reading?
            && sys.sampler.request == Some(Request(id, sys.sampler.rel)) && after[id] == JsonOf(step.read))
  {
    if step.SampleDone? {
      var r := sys.sampler.request;
      assert !sys.stopping ==> Next(sys, step).desk == Released(sys.desk, r, JsonOf(step.read));
      if r.Some? { assert r.value == Request(r.value.id, sys.sampler.rel); }
    } else {
      OthersAnswerNothing(sys, step);
    }
  }

  lemma OthersAnswerNothing(sys: System, step: Step)
    requires Good(sys.s, ALL) && Enabled(sys, step) && !step.SampleDone?
    ensures Next(sys, step).desk.answers == sys.desk.answers
  {
    if step.AskFile? { AnswerFromAnswersNothing(sys, MergeFile(sys.s, step.rel, step.st).0, step.rel); }
  }

  lemma AnswerFromAnswersNothing(sys: System, t: State, rel: Text)
    ensures AnswerFrom(sys, t, rel).desk.answers == sys.desk.answers
  {
  }

  /** Hence in every run an answer, once given, is never changed. */
  lemma {:induction false} AnswersStay(sys: System, steps: seq<Step>, id: nat)
    requires Runs(sys, steps) && id in sys.desk.answers
    ensures id in After(sys, steps).desk.answers && After(sys, steps).desk.answers[id] == sys.desk.answers[id]
    decreases |steps|
  {
    if steps != [] {
      AnswersAreOfTheirFiles(sys, steps[0]);
      AnswersStay(Next(sys, steps[0]), steps[1..], id);
    }
  }
}
