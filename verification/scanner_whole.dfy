/** A directory whose listing has gone through it whole is in the index as it was listed. */
module ScannerWhole {
  import opened Bytes
  import opened PathOrder
  import opened ScannerState
  import opened ScannerTrees
  import opened ScannerRun
  import opened ScannerTheorems
  import opened ScannerDirs
  import opened ScannerListings

  // ---- What is in a directory

  predicate IsName(name: Text) { 47 !in name }

  ghost predicate IsIn(dir: Text, k: Text) { exists name :: IsName(name) && k == Key(dir, name) }

  /** The files of the index that are in the directory itself: their status and their mark. */
  ghost function FilesIn(x: Index, dir: Text): map<Text, (Stat, nat)> {
    map k | k in x.entries && IsIn(dir, k) :: (x.entries[k].stat, x.entries[k].seen)
  }

  ghost function DirsIn(x: Index, dir: Text): map<Text, KnownDir> {
    map k | k in x.knownDirs && IsIn(dir, k) :: x.knownDirs[k]
  }

  // ---- The steps of a listing, and those of the others

  predicate OfWalker(step: Step) {
    step.WalkTake? || step.WalkStart? || step.WalkBatch? || step.WalkEnd? || step.WalkRest? || step.WalkFail?
  }

  /** The other threads neither merge nor erase what is in the directory. */
  ghost predicate Leaves(sys: System, step: Step, dir: Text)
    requires Inv(sys) && Enabled(sys, step)
  {
    && FilesIn(Next(sys, step).s.ix, dir) == FilesIn(sys.s.ix, dir)
    && DirsIn(Next(sys, step).s.ix, dir) == DirsIn(sys.s.ix, dir)
  }

  /** Batches of the walker, and steps of others that leave the directory alone. */
  ghost predicate Undisturbed(sys: System, steps: seq<Step>, dir: Text)
    requires Runs(sys, steps)
    decreases |steps|
  {
    steps == [] || (
      && (steps[0].WalkBatch? || (!OfWalker(steps[0]) && Leaves(sys, steps[0], dir)))
      && Undisturbed(Next(sys, steps[0]), steps[1..], dir))
  }

  /** What the batches have listed. */
  function ListedBy(steps: seq<Step>): seq<DirEntry> {
    if steps == [] then []
    else (match steps[0] case WalkBatch(batch) => batch case _ => []) + ListedBy(steps[1..])
  }

  lemma OthersLeaveWalker(sys: System, step: Step)
    requires Inv(sys) && Enabled(sys, step) && !OfWalker(step)
    ensures Next(sys, step).walker == sys.walker
  {
    if step.AskFile? { AnswerLeavesWalker(sys, MergeFile(sys.s, step.rel, step.st).0, step.rel); }
  }

  lemma AnswerLeavesWalker(sys: System, t: State, rel: Text)
    ensures AnswerFrom(sys, t, rel).walker == sys.walker
  {
  }

  lemma {:induction false} RefusedStays(sys: System, steps: seq<Step>, dir: Text)
    requires Runs(sys, steps) && Undisturbed(sys, steps, dir) && sys.walker.Listing? && sys.walker.refused
    ensures After(sys, steps).walker == sys.walker
    decreases |steps|
  {
    if steps != [] {
      OthersLeaveWalker(sys, steps[0]);
      RefusedStays(Next(sys, steps[0]), steps[1..], dir);
    }
  }

  lemma LimitStays(sys: System, step: Step)
    requires Inv(sys) && Enabled(sys, step) && !step.WalkTake? && Next(sys, step).s.gen == sys.s.gen
    ensures sys.s.flags.limitHit ==> Next(sys, step).s.flags.limitHit
    ensures Next(sys, step).s.flags.indexFull ==> sys.s.flags.indexFull || Next(sys, step).s.flags.limitHit
  {
    if !step.Refresh? { StepQueues(sys, step); }
  }

  lemma {:induction false} LimitStaysHit(sys: System, steps: seq<Step>, dir: Text)
    requires Runs(sys, steps) && Undisturbed(sys, steps, dir) && After(sys, steps).s.gen == sys.s.gen
    ensures sys.s.flags.limitHit ==> After(sys, steps).s.flags.limitHit
    decreases |steps|
  {
    if steps != [] {
      LimitStays(sys, steps[0]);
      LimitStaysHit(Next(sys, steps[0]), steps[1..], dir);
    }
  }

  // ---- What the listing has come to

  /** A listed file is there as it was listed; a listed directory is known, or too deep. */
  ghost predicate IsMet(fs: map<Text, (Stat, nat)>, ds: map<Text, KnownDir>, dir: Text, de: DirEntry, start: nat) {
    var k := Key(dir, de.name);
    if de.isDir then (k in ds && ds[k].mtime == de.stat.mtime && ds[k].seen >= start) || (k !in ds && IsTooDeep(k))
    else k in fs && fs[k].0 == de.stat && fs[k].1 >= start
  }

  ghost predicate NamesFile(dir: Text, listed: seq<DirEntry>, k: Text, isDir: bool) {
    exists i :: 0 <= i < |listed| && listed[i].isDir == isDir && k == Key(dir, listed[i].name)
  }

  /** All that was listed is met, and nothing else bears a mark of the listing. */
  ghost predicate AsListed(
    fs: map<Text, (Stat, nat)>, ds: map<Text, KnownDir>, dir: Text, listed: seq<DirEntry>, start: nat)
  {
    && (forall i :: 0 <= i < |listed| ==> IsMet(fs, ds, dir, listed[i], start))
    && (forall k :: k in fs && fs[k].1 >= start ==> NamesFile(dir, listed, k, false))
    && (forall k :: k in ds && ds[k].seen >= start ==> NamesFile(dir, listed, k, true))
  }

  ghost predicate HasListed(sys: System, dir: Text, listed: seq<DirEntry>, start: nat) {
    && Inv(sys) && sys.walker == Listing(dir, sys.s.gen, start, false) && start <= sys.s.stamp
    && !sys.s.flags.limitHit && AsListed(FilesIn(sys.s.ix, dir), DirsIn(sys.s.ix, dir), dir, listed, start)
  }

  predicate GoodNames(listed: seq<DirEntry>) {
    DistinctEntries(listed) && forall i :: 0 <= i < |listed| ==> IsName(listed[i].name)
  }

  lemma IsInKey(dir: Text, name: Text)
    requires IsName(name)
    ensures IsIn(dir, Key(dir, name))
  {
  }

  /** One more that was met, in a batch. */
  lemma MetInBatch(s: State, t: State, dir: Text, batch: seq<DirEntry>, i: nat, start: nat)
    requires BatchMerged(s, t, dir, batch) && i < |batch| && IsName(batch[i].name) && start <= s.stamp
    requires !t.flags.limitHit && !t.flags.indexFull
    ensures IsMet(FilesIn(t.ix, dir), DirsIn(t.ix, dir), dir, batch[i], start)
  {
    assert IsListed(t, dir, batch[i], s.stamp);
    IsInKey(dir, batch[i].name);
  }

  /** One that was met before, while a batch is merged that does not name it. */
  lemma MetBefore(s: State, t: State, dir: Text, batch: seq<DirEntry>, de: DirEntry, start: nat)
    requires BatchMerged(s, t, dir, batch) && IsMet(FilesIn(s.ix, dir), DirsIn(s.ix, dir), dir, de, start)
    requires IsName(de.name) && forall i :: 0 <= i < |batch| ==> batch[i].name != de.name
    ensures IsMet(FilesIn(t.ix, dir), DirsIn(t.ix, dir), dir, de, start)
  {
    KeyNotAmong(dir, de.name, batch, false);
    KeyNotAmong(dir, de.name, batch, true);
    IsInKey(dir, de.name);
  }

  /** What the batch does not name is as it was. */
  lemma UnnamedStays(s: State, t: State, dir: Text, batch: seq<DirEntry>, k: Text)
    requires BatchMerged(s, t, dir, batch)
    ensures k in FilesIn(t.ix, dir) && !NamesFile(dir, batch, k, false) ==>
      k in FilesIn(s.ix, dir) && FilesIn(s.ix, dir)[k] == FilesIn(t.ix, dir)[k]
    ensures k in DirsIn(t.ix, dir) && !NamesFile(dir, batch, k, true) ==>
      k in DirsIn(s.ix, dir) && DirsIn(s.ix, dir)[k] == DirsIn(t.ix, dir)[k]
  {
    if k in KeysOf(dir, batch, false) {
      var i :| 0 <= i < |batch| && batch[i].isDir == false && k == Key(dir, batch[i].name);
      assert NamesFile(dir, batch, k, false);
    }
    if k in KeysOf(dir, batch, true) {
      var i :| 0 <= i < |batch| && batch[i].isDir == true && k == Key(dir, batch[i].name);
      assert NamesFile(dir, batch, k, true);
    }
  }

  lemma NamesMore(dir: Text, listed: seq<DirEntry>, batch: seq<DirEntry>, k: Text, isDir: bool)
    ensures NamesFile(dir, listed, k, isDir) || NamesFile(dir, batch, k, isDir) ==>
      NamesFile(dir, listed + batch, k, isDir)
  {
    var all := listed + batch;
    if NamesFile(dir, listed, k, isDir) {
      var i :| 0 <= i < |listed| && listed[i].isDir == isDir && k == Key(dir, listed[i].name);
      assert all[i] == listed[i];
    }
    if NamesFile(dir, batch, k, isDir) {
      var i :| 0 <= i < |batch| && batch[i].isDir == isDir && k == Key(dir, batch[i].name);
      assert all[|listed| + i] == batch[i];
    }
  }

  lemma AllAreMet(s: State, t: State, dir: Text, listed: seq<DirEntry>, batch: seq<DirEntry>, start: nat, i: nat)
    requires BatchMerged(s, t, dir, batch) && GoodNames(listed + batch) && start <= s.stamp && i < |listed + batch|
    requires !t.flags.limitHit && !t.flags.indexFull
    requires i < |listed| ==> IsMet(FilesIn(s.ix, dir), DirsIn(s.ix, dir), dir, listed[i], start)
    ensures IsMet(FilesIn(t.ix, dir), DirsIn(t.ix, dir), dir, (listed + batch)[i], start)
  {
    var all := listed + batch;
    assert IsName(all[i].name);
    if i < |listed| {
      assert all[i] == listed[i];
      forall j | 0 <= j < |batch|
        ensures batch[j].name != listed[i].name
      {
        assert all[|listed| + j] == batch[j];
      }
      MetBefore(s, t, dir, batch, listed[i], start);
    } else {
      assert all[i] == batch[i - |listed|];
      MetInBatch(s, t, dir, batch, i - |listed|, start);
    }
  }

  /** A batch more. */
  lemma BatchGoesOn(s: State, t: State, dir: Text, listed: seq<DirEntry>, batch: seq<DirEntry>, start: nat)
    requires BatchMerged(s, t, dir, batch) && GoodNames(listed + batch) && start <= s.stamp
    requires !t.flags.limitHit && !t.flags.indexFull
    requires AsListed(FilesIn(s.ix, dir), DirsIn(s.ix, dir), dir, listed, start)
    ensures AsListed(FilesIn(t.ix, dir), DirsIn(t.ix, dir), dir, listed + batch, start)
  {
    var all, fs, ds := listed + batch, FilesIn(t.ix, dir), DirsIn(t.ix, dir);
    forall i | 0 <= i < |all|
      ensures IsMet(fs, ds, dir, all[i], start)
    {
      AllAreMet(s, t, dir, listed, batch, start, i);
    }
    forall k | k in fs && fs[k].1 >= start
      ensures NamesFile(dir, all, k, false)
    {
      UnnamedStays(s, t, dir, batch, k);
      NamesMore(dir, listed, batch, k, false);
    }
    forall k | k in ds && ds[k].seen >= start
      ensures NamesFile(dir, all, k, true)
    {
      UnnamedStays(s, t, dir, batch, k);
      NamesMore(dir, listed, batch, k, true);
    }
  }

  /** A step of the listing, or of others, of those that do not end it. */
  lemma StepGoesOn(sys: System, step: Step, dir: Text, listed: seq<DirEntry>, start: nat)
    requires HasListed(sys, dir, listed, start) && Enabled(sys, step) && GoodNames(listed + ListedBy([step]))
    requires step.WalkBatch? || (!OfWalker(step) && Leaves(sys, step, dir))
    requires var next := Next(sys, step);
      next.s.gen == sys.s.gen && !next.s.flags.limitHit && !next.walker.refused && next.walker.Listing?
    ensures HasListed(Next(sys, step), dir, listed + ListedBy([step]), start)
  {
    var next := Next(sys, step);
    StepKeepsInv(sys, step);
    LimitStays(sys, step);
    assert [step][1..] == [] && ListedBy([]) == [];
    if step.WalkBatch? {
      assert ListedBy([step]) == step.batch + [] == step.batch;
      BatchNames(listed, step.batch);
      WalkerListsBatch(sys, step.batch);
      BatchGoesOn(sys.s, next.s, dir, listed, step.batch, start);
    } else {
      assert ListedBy([step]) == [] + [] && listed + [] == listed;
      OthersLeaveWalker(sys, step);
      StampGrows(sys, step);
    }
  }

  lemma StampGrows(sys: System, step: Step)
    requires Inv(sys) && Enabled(sys, step)
    ensures Next(sys, step).s.stamp >= sys.s.stamp
  {
    if step.AskFile? { AnswerKeepsStamp(sys, step.rel, step.st); }
  }

  lemma AnswerKeepsStamp(sys: System, rel: Text, st: Stat)
    requires Inv(sys)
    ensures AnswerFile(sys, rel, st).s.stamp == sys.s.stamp
  {
  }

  lemma BatchNames(listed: seq<DirEntry>, batch: seq<DirEntry>)
    requires GoodNames(listed + batch)
    ensures DistinctEntries(batch)
  {
    var all := listed + batch;
    forall i, j | 0 <= i < j < |batch|
      ensures batch[i].name != batch[j].name
    {
      assert all[|listed| + i] == batch[i] && all[|listed| + j] == batch[j];
    }
  }

  lemma ListedCons(steps: seq<Step>)
    requires steps != []
    ensures ListedBy(steps) == ListedBy([steps[0]]) + ListedBy(steps[1..])
  {
    assert [steps[0]][1..] == [];
    var first := match steps[0] case WalkBatch(batch) => batch case _ => [];
    assert ListedBy([steps[0]]) == first + [] == first;
  }

  lemma NamesOfFirst(a: seq<DirEntry>, b: seq<DirEntry>)
    requires GoodNames(a + b)
    ensures GoodNames(a)
  {
    assert forall i :: 0 <= i < |a| ==> (a + b)[i] == a[i];
  }

  /** What the steps of a run leave, if neither refresh nor the limit nor a refused batch comes between. */
  lemma {:induction false} ListingGoesOn(sys: System, steps: seq<Step>, dir: Text, listed: seq<DirEntry>, start: nat)
    requires Runs(sys, steps) && Undisturbed(sys, steps, dir) && HasListed(sys, dir, listed, start)
    requires GoodNames(listed + ListedBy(steps))
    requires var end := After(sys, steps);
      end.s.gen == sys.s.gen && !end.s.flags.limitHit && end.walker.Listing? && !end.walker.refused
    ensures HasListed(After(sys, steps), dir, listed + ListedBy(steps), start)
    decreases |steps|
  {
    if steps == [] {
      assert listed + ListedBy(steps) == listed;
    } else {
      var next, rest, more := Next(sys, steps[0]), steps[1..], listed + ListedBy([steps[0]]);
      ListedCons(steps);
      Regroup(listed, ListedBy([steps[0]]), ListedBy(rest));
      NamesOfFirst(more, ListedBy(rest));
      LimitStaysHit(next, rest, dir);
      NotRefusedYet(sys, steps, dir);
      StepGoesOn(sys, steps[0], dir, listed, start);
      ListingGoesOn(next, rest, dir, more, start);
    }
  }

  lemma NotRefusedYet(sys: System, steps: seq<Step>, dir: Text)
    requires Runs(sys, steps) && Undisturbed(sys, steps, dir) && steps != [] && sys.walker.Listing?
    requires After(sys, steps).walker.Listing? && !After(sys, steps).walker.refused
    ensures Next(sys, steps[0]).walker.Listing? && !Next(sys, steps[0]).walker.refused
  {
    var next := Next(sys, steps[0]);
    if steps[0].WalkBatch? {
      assert next.walker.Listing?;
    } else {
      OthersLeaveWalker(sys, steps[0]);
    }
    if next.walker.refused { RefusedStays(next, steps[1..], dir); }
  }

  // ---- The end of it

  lemma KeyIsDirect(dir: Text, name: Text)
    requires IsName(name)
    ensures Direct(Under(dir), Key(dir, name))
  {
    var k := Key(dir, name);
    if dir == [] {
      assert k[0..] == name;
    } else {
      assert k[|dir| + 1..] == name && k[..|dir| + 1] == dir + [47];
    }
  }

  /** What is left of the files of the directory: those with a mark of the listing, but for the exception. */
  lemma EndLeaves(x: Index, dir: Text, start: nat, name: Text)
    requires IsName(name)
    ensures var k, y := Key(dir, name), RemoveUnseen(ForgetUnreadable(x, dir), dir, start);
      && (k in y.entries <==> k in x.entries && x.entries[k].seen >= start &&
                              !(k in x.knownDirs && x.knownDirs[k].seen < start))
      && (k in y.entries ==> y.entries[k] == x.entries[k])
  {
    var k, z := Key(dir, name), ForgetUnreadable(x, dir);
    KeyIsDirect(dir, name);
    if k in x.entries && x.entries[k].seen >= start {
      MetFileStays(z, dir, start, k);
    } else if k in x.entries {
      assert k in UnseenFiles(z, dir, start);
    }
  }

  /** And of its directories. */
  lemma EndLeavesDirs(x: Index, dir: Text, start: nat, name: Text)
    requires IsName(name)
    ensures var k, y := Key(dir, name), RemoveUnseen(ForgetUnreadable(x, dir), dir, start);
      && (k in y.knownDirs <==> k in x.knownDirs && x.knownDirs[k].seen >= start)
      && (k in y.knownDirs ==> y.knownDirs[k] == x.knownDirs[k])
  {
    var k, z := Key(dir, name), ForgetUnreadable(x, dir);
    var gone := GoneDirs(z, dir, start);
    KeyIsDirect(dir, name);
    if k in x.knownDirs {
      assert InTree(k, k);
      forall d | d in gone && d != k
        ensures !InTree(d, k)
      {
        UnderIsNotDirect(Under(dir), d, k);
      }
    }
  }

  /** The name was listed, as a file or as a directory. */
  ghost predicate Names(listed: seq<DirEntry>, name: Text, isDir: bool) {
    exists i :: 0 <= i < |listed| && listed[i].isDir == isDir && listed[i].name == name
  }

  /** In a directory gone through whole, a name is that of a file exactly if it was listed as one. */
  lemma NamedAre(dir: Text, listed: seq<DirEntry>, name: Text, isDir: bool)
    ensures NamesFile(dir, listed, Key(dir, name), isDir) <==> Names(listed, name, isDir)
  {
    if NamesFile(dir, listed, Key(dir, name), isDir) {
      var i :| 0 <= i < |listed| && listed[i].isDir == isDir && Key(dir, name) == Key(dir, listed[i].name);
      KeysDiffer(dir, name, listed[i].name);
    }
  }

  /** What AsListed says of a name. */
  lemma ListedAre(x: Index, dir: Text, listed: seq<DirEntry>, start: nat, name: Text)
    requires IsName(name) && AsListed(FilesIn(x, dir), DirsIn(x, dir), dir, listed, start)
    ensures var k := Key(dir, name);
      && (k in x.entries && x.entries[k].seen >= start <==> Names(listed, name, false))
      && (k in x.knownDirs && x.knownDirs[k].seen >= start ==> Names(listed, name, true))
      && (Names(listed, name, true) ==> (k in x.knownDirs && x.knownDirs[k].seen >= start) || IsTooDeep(k))
  {
    var k := Key(dir, name);
    IsInKey(dir, name);
    NamedAre(dir, listed, name, false);
    NamedAre(dir, listed, name, true);
    assert k in x.entries ==> k in FilesIn(x, dir) && FilesIn(x, dir)[k].1 == x.entries[k].seen;
    assert k in x.knownDirs ==> k in DirsIn(x, dir) && DirsIn(x, dir)[k].seen == x.knownDirs[k].seen;
    if Names(listed, name, false) {
      var i :| 0 <= i < |listed| && listed[i].isDir == false && listed[i].name == name;
      assert IsMet(FilesIn(x, dir), DirsIn(x, dir), dir, listed[i], start);
    }
    if Names(listed, name, true) {
      var i :| 0 <= i < |listed| && listed[i].isDir == true && listed[i].name == name;
      assert IsMet(FilesIn(x, dir), DirsIn(x, dir), dir, listed[i], start);
    }
  }

  /** When the walker starts to list, no mark is of this listing. */
  lemma StartsEmpty(sys: System)
    requires Inv(sys) && Enabled(sys, WalkStart) && Marked(sys.s) && sys.walker.gen == sys.s.gen
    requires !sys.s.flags.limitHit
    ensures HasListed(Next(sys, WalkStart), sys.walker.dir, [], sys.s.stamp + 1)
  {
    StepKeepsInv(sys, WalkStart);
  }

  /** The directory as it was listed: files by their status, directories unless they are too deep. */
  ghost predicate IsWhole(x: Index, y: Index, dir: Text, listed: seq<DirEntry>, start: nat) {
    && (forall name :: IsName(name) ==>
          (Key(dir, name) in y.entries <==>
             Names(listed, name, false) &&
             !(Key(dir, name) in x.knownDirs && x.knownDirs[Key(dir, name)].seen < start)))
    && (forall name :: IsName(name) ==>
          (Key(dir, name) in y.knownDirs ==> Names(listed, name, true)) &&
          (Names(listed, name, true) ==> Key(dir, name) in y.knownDirs || IsTooDeep(Key(dir, name))))
    && (forall i :: 0 <= i < |listed| && !listed[i].isDir && Key(dir, listed[i].name) in y.entries ==>
          y.entries[Key(dir, listed[i].name)].stat == listed[i].stat)
  }

  lemma EndIsWhole(x: Index, dir: Text, listed: seq<DirEntry>, start: nat)
    requires GoodNames(listed) && AsListed(FilesIn(x, dir), DirsIn(x, dir), dir, listed, start)
    ensures IsWhole(x, RemoveUnseen(ForgetUnreadable(x, dir), dir, start), dir, listed, start)
  {
    var y := RemoveUnseen(ForgetUnreadable(x, dir), dir, start);
    forall name | IsName(name)
      ensures Key(dir, name) in y.entries <==>
        Names(listed, name, false) && !(Key(dir, name) in x.knownDirs && x.knownDirs[Key(dir, name)].seen < start)
      ensures Key(dir, name) in y.knownDirs ==> Names(listed, name, true)
      ensures Names(listed, name, true) ==> Key(dir, name) in y.knownDirs || IsTooDeep(Key(dir, name))
    {
      ListedAre(x, dir, listed, start, name);
      EndLeaves(x, dir, start, name);
      EndLeavesDirs(x, dir, start, name);
    }
    forall i | 0 <= i < |listed| && !listed[i].isDir && Key(dir, listed[i].name) in y.entries
      ensures y.entries[Key(dir, listed[i].name)].stat == listed[i].stat
    {
      EndLeaves(x, dir, start, listed[i].name);
      assert IsMet(FilesIn(x, dir), DirsIn(x, dir), dir, listed[i], start);
    }
  }

  /**
    * A listing that goes through a directory whole, with no refresh, no memory limit and nobody else at the
    * directory meanwhile: its files in the index are then exactly the files listed, with the status listed, but
    * for names of known directories that were not met; and its known directories those listed, but for such
    * as are too deep.
    */
  lemma WholeListing(sys: System, steps: seq<Step>)
    requires Inv(sys) && Marked(sys.s) && Enabled(sys, WalkStart)
    requires Runs(Next(sys, WalkStart), steps) && Undisturbed(Next(sys, WalkStart), steps, sys.walker.dir)
    requires GoodNames(ListedBy(steps))
    requires var before := After(Next(sys, WalkStart), steps);
      before.s.gen == sys.walker.gen && !before.s.flags.limitHit && Enabled(before, WalkEnd(Whole))
    ensures var before := After(Next(sys, WalkStart), steps);
      IsWhole(before.s.ix, Next(before, WalkEnd(Whole)).s.ix, sys.walker.dir, ListedBy(steps), sys.s.stamp + 1)
  {
    var first, dir, start := Next(sys, WalkStart), sys.walker.dir, sys.s.stamp + 1;
    var before := After(first, steps);
    assert sys.walker.gen <= sys.s.gen <= before.s.gen;
    LimitStaysHit(first, steps, dir);
    StartsEmpty(sys);
    assert [] + ListedBy(steps) == ListedBy(steps);
    ListingGoesOn(first, steps, dir, [], start);
    EndIsWhole(before.s.ix, dir, ListedBy(steps), start);
  }
}
