/**
  * The scanner as a whole: the walker, the sampler and the thread that answers requests take turns
  * at the mutex, and each critical section is one step. What the file system answers is part of
  * the step, so every interleaving of every set of answers is a run.
  */
module ScannerRun {
  import opened Bytes
  import opened PathOrder
  import opened ScannerState
  import opened ScannerBooks
  import opened ScannerTrees

  datatype DirEntry = DirEntry(name: Text, isDir: bool, stat: Stat)

  /** How a listing ended: denied, gone through whole, or anything else. */
  datatype Outcome = Denied | Whole | Partial

  /** What opening a file gave. */
  datatype Read = Opened(st: Stat, preview: Preview) | Gone(why: Text) | OpenFailed(why: Text)

  /** A thread in list_level: not in it, before its first section, between sections, after its last. */
  datatype Lister =
    | AtRest
    | Taken(dir: Text, gen: nat)
    | Listing(dir: Text, gen: nat, start: nat, refused: bool)
    | Listed(gen: nat)

  datatype Sampler = Free | Reading(rel: Text, gen: nat, request: Option<Request>)

  /** theRequests, theCurrentRequest and the previews that answered requests. */
  datatype Desk = Desk(requests: seq<Request>, current: Option<Request>, answers: map<nat, Text>, nextId: nat)

  datatype System = System(
    s: State, desk: Desk, walker: Lister, sampler: Sampler, asker: Lister, stopping: bool)

  datatype Step =
    | WalkTake | WalkStart | WalkBatch(batch: seq<DirEntry>) | WalkEnd(outcome: Outcome) | WalkRest | WalkFail
    | SampleTakeRequest | SampleTakeFile | SampleDone(read: Read) | SampleFail
    | AskDir(dir: Text) | AskStart | AskBatch(entries: seq<DirEntry>) | AskEnd(how: Outcome) | AskRest
    | AskFile(rel: Text, st: Stat)
    | AskErase(missing: Text)
    | AskRecheck(goneDirs: seq<Text>, changedDirs: seq<(Text, int)>)
    | AskRelist(goneFiles: seq<Text>, changedFiles: seq<(Text, Stat)>)
    | Refresh
    | Stop

  // ---- What the sections do to the state

  ghost const ALL: iset<Text> := iset k: Text | true

  function Child(dir: Text, name: Text): Text {
    if dir == [] then name else dir + [SLASH] + name
  }

  ghost function MergeOne(s: State, dir: Text, de: DirEntry): (t: State)
    requires Good(s, ALL)
    ensures Good(t, ALL) && Same(s, t)
  {
    var rel := Child(dir, de.name);
    MergeDirKeepsGood(s, rel, de.stat.mtime, ALL);
    MergeFileKeepsGood(s, rel, de.stat, ALL);
    if de.isDir then MergeDir(s, rel, de.stat.mtime) else MergeFile(s, rel, de.stat).0
  }

  ghost function MergeBatch(s: State, dir: Text, batch: seq<DirEntry>): (t: State)
    requires Good(s, ALL)
    ensures Good(t, ALL) && Same(s, t)
    decreases |batch|
  {
    if batch == [] then s else MergeBatch(MergeOne(s, dir, batch[0]), dir, batch[1..])
  }

  /** A batch of a listing begun in generation gen. The walker stops at a full index, a request goes on. */
  ghost predicate Refuses(sys: System, gen: nat, walker: bool) {
    gen != sys.s.gen || sys.stopping || (walker && sys.s.flags.indexFull)
  }

  ghost function EndListing(s: State, dir: Text, gen: nat, start: nat, outcome: Outcome): (t: State)
    requires Books(s.ix)
    ensures Same(s, t)
  {
    if gen != s.gen then s else
      match outcome
      case Denied => NoteUnreadable(s, dir)
      case Whole => s.(ix := RemoveUnseen(ForgetUnreadable(s.ix, dir), dir, start))
      case Partial => s
  }

  function Released(desk: Desk, request: Option<Request>, json: Text): Desk {
    match request
    case None => desk
    case Some(r) => desk.(current := None, answers := desk.answers[r.id := json])
  }

  function JsonOf(read: Read): Text {
    match read
    case Opened(_, p) => p.json
    case Gone(why) => why
    case OpenFailed(why) => why
  }

  /** The section of sample() after a read: what it stores. */
  ghost function StoreRead(s: State, rel: Text, gen: nat, asked: bool, read: Read): (t: State)
    requires Good(s, ALL)
    ensures Same(s, t)
  {
    match read
    case Opened(st, p) =>
      if !asked then StoreSampled(s, rel, gen, st, p)
      else if gen != s.gen then s
      else
        MergeFileKeepsGood(s, rel, st, ALL);
        var (t, merged) := MergeFile(s, rel, st);
        if merged then StoreRequested(t, rel, st, p) else t
    case Gone(_) =>
      if asked || gen != s.gen || rel !in s.ix.entries then s else s.(ix := Erase(s.ix, rel))
    case OpenFailed(why) =>
      if asked || gen != s.gen || rel !in s.ix.entries then s
      else StoreSampled(s, rel, gen, s.ix.entries[rel].stat, Preview(why, []))
  }

  /** The request for a file that is on its way, or a new one if there is room for it. */
  function RequestFor(desk: Desk, rel: Text): Desk {
    if (desk.current.Some? && desk.current.value.rel == rel) ||
       (exists i :: 0 <= i < |desk.requests| && desk.requests[i].rel == rel) ||
       |desk.requests| >= MAX_REQUESTS
    then desk
    else desk.(requests := desk.requests + [Request(desk.nextId, rel)], nextId := desk.nextId + 1)
  }

  ghost predicate Served(s: State, rel: Text) {
    rel in s.ix.entries && s.ix.entries[rel].held.Some?
  }

  /** file_answer once the file is merged: a preview in memory is used, or the sampler is asked for one. */
  ghost function AnswerFrom(sys: System, t: State, rel: Text): System {
    if FormatOf(rel).NoFormat? then sys.(s := t)
    else if Served(t, rel) then sys.(s := t.(ix := Promote(t.ix, rel)))
    else sys.(s := t, desk := RequestFor(sys.desk, rel))
  }

  /** file_answer up to its wait. */
  ghost function AnswerFile(sys: System, rel: Text, st: Stat): System
    requires Good(sys.s, ALL)
  {
    AnswerFrom(sys, MergeFile(sys.s, rel, st).0, rel)
  }

  ghost function EraseEach(x: Index, rels: seq<Text>): (y: Index)
    ensures y.lim == x.lim && y.lost == x.lost
    decreases |rels|
  {
    if rels == [] then x else
      EraseEach(if rels[0] in x.entries then Erase(x, rels[0]) else x, rels[1..])
  }

  ghost function MergeEach(s: State, changed: seq<(Text, Stat)>): (t: State)
    requires Good(s, ALL)
    ensures Good(t, ALL) && Same(s, t)
    decreases |changed|
  {
    if changed == [] then s else
      MergeFileKeepsGood(s, changed[0].0, changed[0].1, ALL);
      MergeEach(MergeFile(s, changed[0].0, changed[0].1).0, changed[1..])
  }

  ghost function EraseTreeEach(x: Index, rels: seq<Text>): (y: Index)
    ensures y.lim == x.lim && y.lost == x.lost
    decreases |rels|
  {
    if rels == [] then x else EraseTreeEach(EraseTree(x, rels[0]), rels[1..])
  }

  /** A known directory with another time is to be walked again. */
  function WalkOne(s: State, rel: Text, mtime: int): (t: State)
    ensures Same(s, t)
  {
    if rel !in s.ix.knownDirs then s else
      s.(ix := s.ix.(knownDirs := s.ix.knownDirs[rel := s.ix.knownDirs[rel].(mtime := mtime)]),
         dirs := if s.flags.indexFull then s.dirs else s.dirs + [rel])
  }

  function WalkAgain(s: State, changed: seq<(Text, int)>): (t: State)
    ensures Same(s, t)
    decreases |changed|
  {
    if changed == [] then s else WalkAgain(WalkOne(s, changed[0].0, changed[0].1), changed[1..])
  }

  function Refreshed(s: State): State {
    State(Index(s.ix.lim, map[], map[], {}, [], 0, 0, 0, 0), [[]], [],
          Flags(false, false, false, false), s.gen + 1, s.stamp)
  }

  // ---- The steps

  ghost predicate Enabled(sys: System, step: Step) {
    match step
    case WalkTake => !sys.stopping && sys.walker.AtRest? && sys.s.dirs != []
    case WalkStart => sys.walker.Taken?
    case WalkBatch(_) => sys.walker.Listing? && !sys.walker.refused
    case WalkEnd(o) => sys.walker.Listing? && (o.Whole? ==> !sys.walker.refused)
    case WalkRest => sys.walker.Listed?
    case WalkFail => true
    case SampleTakeRequest => !sys.stopping && sys.sampler.Free? && sys.desk.requests != []
    case SampleTakeFile =>
      !sys.stopping && sys.sampler.Free? && sys.desk.requests == [] && sys.s.files != []
    case SampleDone(_) => sys.sampler.Reading?
    case SampleFail => true
    case AskDir(_) => sys.asker.AtRest?
    case AskStart => sys.asker.Taken?
    case AskBatch(_) => sys.asker.Listing? && !sys.asker.refused
    case AskEnd(o) => sys.asker.Listing? && (o.Whole? ==> !sys.asker.refused)
    case AskRest => sys.asker.Listed?
    case AskFile(_, _) => sys.asker.AtRest?
    case AskErase(_) => sys.asker.AtRest? || sys.asker.Listed?
    case AskRecheck(_, _) => sys.asker.Listed?
    case AskRelist(_, _) => sys.asker.Listed?
    case Refresh => sys.asker.AtRest?
    case Stop => true
  }

  /** A batch, for the lister whose it is: the state after it, and where the lister then stands. */
  ghost function BatchOf(sys: System, l: Lister, batch: seq<DirEntry>, walker: bool): (r: (State, Lister))
    requires Good(sys.s, ALL) && l.Listing?
    ensures Same(sys.s, r.0)
  {
    if Refuses(sys, l.gen, walker) then (sys.s, l.(refused := true))
    else (MergeBatch(sys.s, l.dir, batch), l)
  }

  ghost function Relisted(s: State, goneFiles: seq<Text>, changedFiles: seq<(Text, Stat)>): (t: State)
    requires Good(s, ALL)
    ensures Same(s, t)
  {
    EraseEachKeepsGood(s, goneFiles, ALL);
    MergeEach(s.(ix := EraseEach(s.ix, goneFiles)), changedFiles)
  }

  ghost function Next(sys: System, step: Step): (r: System)
    requires Good(sys.s, ALL) && Enabled(sys, step)
    ensures r.s.ix.lim == sys.s.ix.lim && r.s.gen >= sys.s.gen
    ensures r.s.ix.lost == if step.Refresh? then 0 else sys.s.ix.lost
  {
    var s := sys.s;
    match step
    case WalkTake => sys.(s := s.(dirs := s.dirs[1..]), walker := Taken(s.dirs[0], s.gen))
    case WalkStart =>
      sys.(s := s.(stamp := s.stamp + 1), walker := Listing(sys.walker.dir, sys.walker.gen, s.stamp + 1, false))
    case WalkBatch(batch) =>
      var (t, l) := BatchOf(sys, sys.walker, batch, true);
      sys.(s := t, walker := l)
    case WalkEnd(o) =>
      sys.(s := EndListing(s, sys.walker.dir, sys.walker.gen, sys.walker.start, o), walker := Listed(sys.walker.gen))
    case WalkRest => sys.(walker := AtRest)
    case WalkFail => sys.(s := EndWalk(s), walker := AtRest)
    case SampleTakeRequest =>
      var r := sys.desk.requests[0];
      sys.(desk := sys.desk.(requests := sys.desk.requests[1..], current := Some(r)),
           sampler := Reading(r.rel, s.gen, Some(r)))
    case SampleTakeFile =>
      var rel := s.files[0];
      var t := s.(files := s.files[1..]);
      if rel !in s.ix.entries || s.ix.entries[rel].sampled then sys.(s := t)
      else sys.(s := t, sampler := Reading(rel, s.gen, None))
    case SampleDone(read) =>
      var hand := sys.sampler;
      if sys.stopping then sys.(sampler := Free)
      else sys.(s := StoreRead(s, hand.rel, hand.gen, hand.request.Some?, read),
                desk := Released(sys.desk, hand.request, JsonOf(read)), sampler := Free)
    case SampleFail => sys.(s := StopSampling(s), desk := sys.desk.(current := None), sampler := Free)
    case AskDir(dir) => sys.(asker := Taken(dir, s.gen))
    case AskStart =>
      sys.(s := s.(stamp := s.stamp + 1), asker := Listing(sys.asker.dir, sys.asker.gen, s.stamp + 1, false))
    case AskBatch(batch) =>
      var (t, l) := BatchOf(sys, sys.asker, batch, false);
      sys.(s := t, asker := l)
    case AskEnd(o) =>
      sys.(s := EndListing(s, sys.asker.dir, sys.asker.gen, sys.asker.start, o), asker := Listed(sys.asker.gen))
    case AskRest => sys.(asker := AtRest)
    case AskFile(rel, st) => AnswerFile(sys, rel, st)
    case AskErase(rel) => sys.(s := s.(ix := EraseTree(s.ix, rel)))
    case AskRecheck(goneDirs, changedDirs) =>
      sys.(s := WalkAgain(s.(ix := EraseTreeEach(s.ix, goneDirs)), changedDirs))
    case AskRelist(goneFiles, changedFiles) => sys.(s := Relisted(s, goneFiles, changedFiles))
    case Refresh => sys.(s := Refreshed(s), desk := sys.desk.(requests := []))
    case Stop => sys.(stopping := true)
  }

  ghost function Initial(lim: Limits): System {
    System(State(Index(lim, map[], map[], {}, [], 0, 0, 0, 0), [[]], [], Flags(false, false, false, false), 1, 0),
           Desk([], None, map[], 0), AtRest, Free, AtRest, false)
  }

  // ---- What each step keeps

  /** The file in the sampler's hand, if it was taken in this generation; any, once stopping. */
  ghost function Spared(sys: System): iset<Text> {
    if sys.stopping then ALL
    else if sys.sampler.Reading? && sys.sampler.request.None? && sys.sampler.gen == sys.s.gen then iset{sys.sampler.rel}
    else iset{}
  }

  predicate FromPast(l: Lister, gen: nat) { l.AtRest? || l.gen <= gen }

  /** At most one request for a file is waiting or being read, and no more wait than may. */
  ghost predicate DeskOk(desk: Desk) {
    && |desk.requests| <= MAX_REQUESTS
    && (forall i, j :: 0 <= i < j < |desk.requests| ==> desk.requests[i].rel != desk.requests[j].rel)
    && (desk.current.Some? ==> forall i :: 0 <= i < |desk.requests| ==> desk.requests[i].rel != desk.current.value.rel)
  }

  /** Requests have ids of their own, and those not yet answered have no answer. */
  ghost predicate IdsOk(desk: Desk) {
    && (forall i :: 0 <= i < |desk.requests| ==> Unanswered(desk, desk.requests[i]))
    && (forall i, j :: 0 <= i < j < |desk.requests| ==> desk.requests[i].id != desk.requests[j].id)
    && (desk.current.Some? ==> Unanswered(desk, desk.current.value))
    && (desk.current.Some? ==> forall i :: 0 <= i < |desk.requests| ==> desk.requests[i].id != desk.current.value.id)
    && (forall id :: id in desk.answers ==> id < desk.nextId)
  }

  ghost predicate Unanswered(desk: Desk, r: Request) { r.id < desk.nextId && r.id !in desk.answers }

  /** The sampler reads, for a request, the file the request was made for. */
  ghost predicate HandOk(sys: System) {
    sys.sampler.Reading? && sys.sampler.request.Some? ==>
      sys.desk.current == sys.sampler.request && sys.sampler.request.value.rel == sys.sampler.rel
  }

  ghost predicate Inv(sys: System) {
    && Good(sys.s, Spared(sys))
    && DeskOk(sys.desk) && IdsOk(sys.desk) && HandOk(sys)
    && FromPast(sys.walker, sys.s.gen) && FromPast(sys.asker, sys.s.gen)
    && (sys.sampler.Reading? ==> sys.sampler.gen <= sys.s.gen)
  }

  lemma EraseKeepsGood(s: State, rel: Text, spared: iset<Text>)
    requires Good(s, spared) && rel in s.ix.entries
    ensures Good(s.(ix := Erase(s.ix, rel)), spared)
  {
    EraseKeepsBooks(s.ix, rel);
  }

  lemma {:induction false} EraseEachKeepsGood(s: State, rels: seq<Text>, spared: iset<Text>)
    requires Good(s, spared)
    ensures Good(s.(ix := EraseEach(s.ix, rels)), spared)
    decreases |rels|
  {
    if rels != [] {
      if rels[0] in s.ix.entries {
        EraseKeepsGood(s, rels[0], spared);
        EraseEachKeepsGood(s.(ix := Erase(s.ix, rels[0])), rels[1..], spared);
      } else {
        EraseEachKeepsGood(s, rels[1..], spared);
      }
    }
  }

  lemma RemoveKeepsGood(s: State, files: set<Text>, dirs: set<Text>, unreadable: set<Text>, spared: iset<Text>)
    requires Good(s, spared)
    ensures Good(s.(ix := Remove(s.ix, files, dirs, unreadable)), spared)
  {
    RemoveKeepsBooks(s.ix, files, dirs, unreadable);
  }

  lemma {:induction false} EraseTreeEachKeepsGood(s: State, rels: seq<Text>, spared: iset<Text>)
    requires Good(s, spared)
    ensures Good(s.(ix := EraseTreeEach(s.ix, rels)), spared)
    decreases |rels|
  {
    if rels != [] {
      RemoveKeepsGood(s, TreeIn(s.ix.entries.Keys, rels[0]), TreeIn(s.ix.knownDirs.Keys, rels[0]),
                      TreeIn(s.ix.unreadable, rels[0]), spared);
      EraseTreeEachKeepsGood(s.(ix := EraseTree(s.ix, rels[0])), rels[1..], spared);
    }
  }

  lemma WalkOneKeepsGood(s: State, rel: Text, mtime: int, spared: iset<Text>)
    requires Good(s, spared)
    ensures Good(WalkOne(s, rel, mtime), spared)
  {
    if rel in s.ix.knownDirs { assert WalkOne(s, rel, mtime).ix.knownDirs.Keys == s.ix.knownDirs.Keys; }
  }

  lemma {:induction false} WalkAgainKeepsGood(s: State, changed: seq<(Text, int)>, spared: iset<Text>)
    requires Good(s, spared)
    ensures Good(WalkAgain(s, changed), spared)
    decreases |changed|
  {
    if changed != [] {
      WalkOneKeepsGood(s, changed[0].0, changed[0].1, spared);
      WalkAgainKeepsGood(WalkOne(s, changed[0].0, changed[0].1), changed[1..], spared);
    }
  }

  lemma {:induction false} MergeBatchKeepsGood(s: State, dir: Text, batch: seq<DirEntry>, spared: iset<Text>)
    requires Good(s, spared) && Good(s, ALL)
    ensures Good(MergeBatch(s, dir, batch), spared)
    decreases |batch|
  {
    if batch != [] {
      var rel := Child(dir, batch[0].name);
      if batch[0].isDir {
        MergeDirKeepsGood(s, rel, batch[0].stat.mtime, spared);
      } else {
        MergeFileKeepsGood(s, rel, batch[0].stat, spared);
      }
      MergeBatchKeepsGood(MergeOne(s, dir, batch[0]), dir, batch[1..], spared);
    }
  }

  lemma {:induction false} MergeEachKeepsGood(s: State, changed: seq<(Text, Stat)>, spared: iset<Text>)
    requires Good(s, spared) && Good(s, ALL)
    ensures Good(MergeEach(s, changed), spared)
    decreases |changed|
  {
    if changed != [] {
      MergeFileKeepsGood(s, changed[0].0, changed[0].1, spared);
      MergeFileKeepsGood(s, changed[0].0, changed[0].1, ALL);
      MergeEachKeepsGood(MergeFile(s, changed[0].0, changed[0].1).0, changed[1..], spared);
    }
  }

  lemma EndListingKeepsGood(s: State, dir: Text, gen: nat, start: nat, outcome: Outcome, spared: iset<Text>)
    requires Good(s, spared)
    ensures Good(EndListing(s, dir, gen, start, outcome), spared)
  {
    if gen == s.gen {
      if outcome.Denied? {
        NoteUnreadableKeepsGood(s, dir, spared);
      } else if outcome.Whole? {
        ForgetUnreadableKeepsBooks(s.ix, dir);
        var t := s.(ix := ForgetUnreadable(s.ix, dir));
        var gone := GoneDirs(t.ix, dir, start);
        RemoveKeepsGood(t, UnseenFiles(t.ix, dir, start) + TreesIn(t.ix.entries.Keys, gone),
                        TreesIn(t.ix.knownDirs.Keys, gone), TreesIn(t.ix.unreadable, gone), spared);
      }
    }
  }

  /** Whatever a read gave, the file in hand is accounted for without the hand. */
  lemma StoreReadKeepsGood(s: State, rel: Text, gen: nat, asked: bool, read: Read, spared: iset<Text>)
    requires Good(s, ALL)
    requires Good(s, if !asked && gen == s.gen then spared + iset{rel} else spared)
    ensures Good(StoreRead(s, rel, gen, asked, read), spared)
  {
    if asked {
      if read.Opened? && gen == s.gen {
        MergeFileKeepsGood(s, rel, read.st, ALL);
        MergeFileKeepsGood(s, rel, read.st, spared);
        MergedStat(s, rel, read.st);
        var (t, merged) := MergeFile(s, rel, read.st);
        if merged { StoreRequestedKeepsGood(t, rel, read.st, read.preview, spared); }
      }
    } else if gen == s.gen {
      match read
      case Opened(st, p) =>
        StoreSampledKeepsBooks(s, rel, gen, st, p);
        StoreSampledAccounts(s, rel, st, p, spared);
      case Gone(_) =>
        if rel in s.ix.entries { EraseKeepsBooks(s.ix, rel); }
      case OpenFailed(why) =>
        if rel in s.ix.entries {
          StoreSampledKeepsBooks(s, rel, gen, s.ix.entries[rel].stat, Preview(why, []));
          StoreSampledAccounts(s, rel, s.ix.entries[rel].stat, Preview(why, []), spared);
        }
    }
  }
}
