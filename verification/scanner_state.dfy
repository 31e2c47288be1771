/**
  * What Scanner::Shared guards by its mutex, as a value, and each of its operations as a function
  * on that value. The class in scanner_shared.dfy performs them in place.
  */
module ScannerState {
  import opened Bytes
  import opened PathOrder

  datatype Format = NoFormat | Xml | JsonText | Csv | Html

  /** The part of a file's status that tells one version of it from another. */
  datatype Stat = Stat(size: nat, mtime: int)

  datatype Preview = Preview(json: Text, fields: Text)

  /** A preview in memory; `madeFrom` is the status of the open file it was read from. */
  datatype Held = Held(preview: Preview, cost: nat, madeFrom: Stat)

  datatype Entry = Entry(
    format: Format, stat: Stat, seen: nat, queued: bool, sampled: bool, held: Option<Held>)

  datatype KnownDir = KnownDir(mtime: int, seen: nat)

  /** A file whose preview a request waits for. Requests are objects: `id` tells them apart. */
  datatype Request = Request(id: nat, rel: Text)

  /** The memory limit, and the sizes the platform gives the types the ledger charges for. */
  datatype Limits = Limits(
    maxMemory: nat, stringBytes: nat, entryBytes: nat, dirBytes: nat, lruBytes: nat)

  /**
    * The index of files and directories, the previews' LRU list and the ledger. `lost` is what was charged
    * for directories that then could not be noted: no variable of the program has it.
    */
  datatype Index = Index(
    lim: Limits,
    entries: map<Text, Entry>, knownDirs: map<Text, KnownDir>, unreadable: set<Text>,
    lru: seq<Text>, sampled: int, bytes: int, previewBytes: int, lost: nat)

  datatype Flags = Flags(limitHit: bool, samplingStopped: bool, indexFull: bool, tooDeep: bool)

  /** The index with the walker's and the sampler's queues, and how far the scan has come. */
  datatype State = State(
    ix: Index, dirs: seq<Text>, files: seq<Text>, flags: Flags, gen: nat, stamp: nat)

  const MAX_WALK_DEPTH := 256
  const MAX_REQUESTS := 64
  const HEAP_BLOCK_OVERHEAD := 32

  // ---- What things are charged

  function StringCost(lim: Limits, length: nat): nat {
    lim.stringBytes + length + 1 + HEAP_BLOCK_OVERHEAD
  }

  function EntryCost(lim: Limits, rel: Text): nat {
    lim.entryBytes + HEAP_BLOCK_OVERHEAD + 32 + 2 * StringCost(lim, |rel|)
  }

  function DirCost(lim: Limits, rel: Text): nat {
    lim.dirBytes + 32 + HEAP_BLOCK_OVERHEAD + 2 * StringCost(lim, |rel|)
  }

  function PreviewCost(lim: Limits, p: Preview): nat {
    StringCost(lim, |p.json|) + StringCost(lim, |p.fields|) + lim.lruBytes + 16 + HEAP_BLOCK_OVERHEAD
  }

  // ---- The books: what the counters and the LRU list must agree with

  /** How many entries are sampled, what the previews are charged, and what the entries are. */
  datatype Totals = Totals(sampled: int, previews: int, index: int)

  function SampledMark(e: Entry): int { if e.sampled then 1 else 0 }
  function PreviewCharge(e: Entry): int { if e.held.Some? then e.held.value.cost else 0 }

  function Plus(t: Totals, lim: Limits, k: Text, e: Entry): Totals {
    Totals(t.sampled + SampledMark(e), t.previews + PreviewCharge(e), t.index + EntryCost(lim, k))
  }

  ghost function EntryTotals(lim: Limits, es: map<Text, Entry>): Totals {
    if es == map[] then Totals(0, 0, 0) else
      var k :| k in es;
      Plus(EntryTotals(lim, es - {k}), lim, k, es[k])
  }

  ghost function DirTotal(lim: Limits, dirs: set<Text>): int {
    if dirs == {} then 0 else
      var k :| k in dirs;
      DirTotal(lim, dirs - {k}) + DirCost(lim, k)
  }

  /** theLru lists exactly the entries with previews, once each. */
  ghost predicate LruOk(x: Index) {
    NoDup(x.lru) && forall k :: k in x.lru <==> k in x.entries && x.entries[k].held.Some?
  }

  /** The three counters are the sums they stand for, but for what was lost. */
  ghost predicate LedgerOk(x: Index) {
    var t := EntryTotals(x.lim, x.entries);
    && x.sampled == t.sampled
    && x.previewBytes == t.previews
    && x.bytes == t.index + t.previews + DirTotal(x.lim, x.knownDirs.Keys) + DirTotal(x.lim, x.unreadable) + x.lost
  }

  /** A held preview was read from the version of the file its entry records. */
  ghost predicate EntryOk(lim: Limits, e: Entry) {
    e.held.Some? ==>
      && e.sampled
      && e.held.value.madeFrom == e.stat
      && e.held.value.cost == PreviewCost(lim, e.held.value.preview)
  }

  ghost predicate Coherent(x: Index) {
    forall k :: k in x.entries ==> EntryOk(x.lim, x.entries[k])
  }

  ghost predicate Books(x: Index) {
    LruOk(x) && LedgerOk(x) && Coherent(x) && x.bytes <= x.lim.maxMemory
  }

  // ---- Facts about the sums

  lemma {:induction false} TakeEntry(lim: Limits, es: map<Text, Entry>, k: Text)
    requires k in es
    ensures EntryTotals(lim, es) == Plus(EntryTotals(lim, es - {k}), lim, k, es[k])
    decreases |es|
  {
    var j :| j in es && EntryTotals(lim, es) == Plus(EntryTotals(lim, es - {j}), lim, j, es[j]);
    if j != k {
      var rest := es - {j} - {k};
      assert rest == es - {k} - {j};
      TakeEntry(lim, es - {j}, k);
      TakeEntry(lim, es - {k}, j);
      assert Plus(Plus(EntryTotals(lim, rest), lim, k, es[k]), lim, j, es[j]) ==
             Plus(Plus(EntryTotals(lim, rest), lim, j, es[j]), lim, k, es[k]);
    }
  }

  /** What setting one entry does to the sums over the index. */
  lemma PutEntry(lim: Limits, es: map<Text, Entry>, k: Text, e: Entry)
    ensures var t, u := EntryTotals(lim, es), EntryTotals(lim, es[k := e]);
      if k in es then
        u == Totals(t.sampled - SampledMark(es[k]) + SampledMark(e),
                    t.previews - PreviewCharge(es[k]) + PreviewCharge(e), t.index)
      else u == Plus(t, lim, k, e)
  {
    TakeEntry(lim, es[k := e], k);
    assert es[k := e] - {k} == es - {k};
    if k in es {
      TakeEntry(lim, es, k);
    } else {
      assert es - {k} == es;
    }
  }

  lemma {:induction false} TakeDir(lim: Limits, dirs: set<Text>, k: Text)
    requires k in dirs
    ensures DirTotal(lim, dirs) == DirTotal(lim, dirs - {k}) + DirCost(lim, k)
  {
    var j :| j in dirs && DirTotal(lim, dirs) == DirTotal(lim, dirs - {j}) + DirCost(lim, j);
    if j != k {
      assert dirs - {j} - {k} == dirs - {k} - {j};
      TakeDir(lim, dirs - {j}, k);
      TakeDir(lim, dirs - {k}, j);
    }
  }

  lemma PutDir(lim: Limits, dirs: set<Text>, k: Text)
    requires k !in dirs
    ensures DirTotal(lim, dirs + {k}) == DirTotal(lim, dirs) + DirCost(lim, k)
  {
    TakeDir(lim, dirs + {k}, k);
    assert dirs + {k} - {k} == dirs;
  }

  lemma {:induction false} DirTotalNonNegative(lim: Limits, dirs: set<Text>)
    ensures DirTotal(lim, dirs) >= 0
  {
    if dirs != {} {
      var k :| k in dirs;
      TakeDir(lim, dirs, k);
      DirTotalNonNegative(lim, dirs - {k});
    }
  }

  lemma {:induction false} TotalsNonNegative(lim: Limits, es: map<Text, Entry>)
    ensures var t := EntryTotals(lim, es); t.sampled >= 0 && t.previews >= 0 && t.index >= 0
    decreases |es|
  {
    if es != map[] {
      var k :| k in es;
      TakeEntry(lim, es, k);
      TotalsNonNegative(lim, es - {k});
    }
  }

  lemma {:induction false} SampledAtMostAll(lim: Limits, es: map<Text, Entry>)
    ensures EntryTotals(lim, es).sampled <= |es|
    ensures EntryTotals(lim, es).sampled == |es| <==> forall k :: k in es ==> es[k].sampled
    decreases |es|
  {
    if es != map[] {
      var k :| k in es;
      TakeEntry(lim, es, k);
      SampledAtMostAll(lim, es - {k});
      assert |es - {k}| == |es| - 1;
      assert forall j :: j in es - {k} ==> es[j] == (es - {k})[j];
    }
  }

  /**
    * No counter is ever below what is taken off it: none of the subtractions in forget_preview,
    * erase, forget_unreadable, erase_tree or store_requested can wrap around.
    */
  lemma NoUnderflow(x: Index)
    requires LedgerOk(x)
    ensures 0 <= x.sampled && 0 <= x.previewBytes <= x.bytes
    ensures forall k :: k in x.entries ==>
      && SampledMark(x.entries[k]) <= x.sampled
      && PreviewCharge(x.entries[k]) <= x.previewBytes
      && PreviewCharge(x.entries[k]) + EntryCost(x.lim, k) <= x.bytes
    ensures forall k :: k in x.knownDirs ==> DirCost(x.lim, k) <= x.bytes
    ensures forall k :: k in x.unreadable ==> DirCost(x.lim, k) <= x.bytes
  {
    DirTotalNonNegative(x.lim, x.knownDirs.Keys);
    DirTotalNonNegative(x.lim, x.unreadable);
    TotalsNonNegative(x.lim, x.entries);
    forall k | k in x.entries
      ensures SampledMark(x.entries[k]) <= x.sampled
      ensures PreviewCharge(x.entries[k]) <= x.previewBytes
      ensures PreviewCharge(x.entries[k]) + EntryCost(x.lim, k) <= x.bytes
    {
      TakeEntry(x.lim, x.entries, k);
      TotalsNonNegative(x.lim, x.entries - {k});
    }
    forall k | k in x.knownDirs
      ensures DirCost(x.lim, k) <= x.bytes
    {
      TakeDir(x.lim, x.knownDirs.Keys, k);
      DirTotalNonNegative(x.lim, x.knownDirs.Keys - {k});
    }
    forall k | k in x.unreadable
      ensures DirCost(x.lim, k) <= x.bytes
    {
      TakeDir(x.lim, x.unreadable, k);
      DirTotalNonNegative(x.lim, x.unreadable - {k});
    }
  }

  // ---- The operations on the index

  function ForgetPreview(x: Index, k: Text): Index
    requires k in x.entries
  {
    var e := x.entries[k];
    x.(entries := x.entries[k := e.(held := None, sampled := false)],
       lru := if e.held.Some? then Without(x.lru, k) else x.lru,
       bytes := x.bytes - PreviewCharge(e),
       previewBytes := x.previewBytes - PreviewCharge(e),
       sampled := x.sampled - SampledMark(e))
  }

  lemma ForgetPreviewKeepsBooks(x: Index, k: Text)
    requires Books(x) && k in x.entries
    ensures Books(ForgetPreview(x, k))
    ensures ForgetPreview(x, k).entries.Keys == x.entries.Keys
    ensures x.entries[k].held.Some? ==> |ForgetPreview(x, k).lru| == |x.lru| - 1
  {
    var e := x.entries[k];
    PutEntry(x.lim, x.entries, k, e.(held := None, sampled := false));
    NoUnderflow(x);
    WithoutIsExact(x.lru, k);
  }

  /** The preview that goes first: the least recently used one. */
  function EvictColdest(x: Index): Index
    requires x.lru != [] && x.lru[|x.lru| - 1] in x.entries
  {
    ForgetPreview(x, x.lru[|x.lru| - 1])
  }

  /** Only previews went, coldest first. */
  ghost predicate OnlyEvicted(x: Index, y: Index) {
    && y.lim == x.lim && y.lost == x.lost && y.knownDirs == x.knownDirs && y.unreadable == x.unreadable
    && y.lru <= x.lru
    && (y.lru == x.lru ==> y == x)
    && y.entries.Keys == x.entries.Keys
    && (forall k :: k in x.entries ==>
          y.entries[k] == if k in x.lru && k !in y.lru then x.entries[k].(held := None, sampled := false)
                          else x.entries[k])
  }

  lemma {:induction false} WithoutLast<T>(q: seq<T>)
    requires NoDup(q) && q != []
    ensures Without(q, q[|q| - 1]) == q[..|q| - 1]
  {
    if |q| > 1 {
      assert q[0] != q[|q| - 1];
      WithoutLast(q[1..]);
      assert q[1..][..|q| - 2] == q[1..|q| - 1];
    }
  }

  lemma EvictOnce(x: Index)
    requires Books(x) && x.lru != []
    ensures x.lru[|x.lru| - 1] in x.entries
    ensures Books(EvictColdest(x)) && OnlyEvicted(x, EvictColdest(x))
    ensures EvictColdest(x).lru == x.lru[..|x.lru| - 1]
  {
    assert x.lru[|x.lru| - 1] in x.lru;
    ForgetPreviewKeepsBooks(x, x.lru[|x.lru| - 1]);
    WithoutLast(x.lru);
    WithoutIsExact(x.lru, x.lru[|x.lru| - 1]);
  }

  lemma OnlyEvictedTransitive(x: Index, y: Index, z: Index)
    requires OnlyEvicted(x, y) && OnlyEvicted(y, z)
    ensures OnlyEvicted(x, z)
  {
  }

  /** Both eviction loops: previews go until `cost` more fits, or none is left. */
  ghost function EvictToFit(x: Index, cost: nat): (y: Index)
    requires Books(x)
    ensures Books(y) && OnlyEvicted(x, y)
    ensures y.bytes + cost > y.lim.maxMemory ==> y.lru == []
    decreases |x.lru|
  {
    if x.bytes + cost <= x.lim.maxMemory || x.lru == [] then x else
      EvictOnce(x);
      var y := EvictToFit(EvictColdest(x), cost);
      OnlyEvictedTransitive(x, EvictColdest(x), y);
      y
  }

  /** Eviction frees previews and nothing of the index; with none left it has freed them all. */
  lemma EvictionFreesPreviews(x: Index, y: Index)
    requires Books(x) && Books(y) && OnlyEvicted(x, y)
    ensures y.bytes - y.previewBytes == x.bytes - x.previewBytes
    ensures y.lru == [] ==> y.previewBytes == 0
  {
    SameKeysSameIndex(x.lim, x.entries, y.entries);
    if y.lru == [] {
      NothingHeld(y.lim, y.entries);
    }
  }

  lemma {:induction false} SameKeysSameIndex(lim: Limits, a: map<Text, Entry>, b: map<Text, Entry>)
    requires a.Keys == b.Keys
    ensures EntryTotals(lim, a).index == EntryTotals(lim, b).index
    decreases |a|
  {
    if a != map[] {
      var k :| k in a;
      TakeEntry(lim, a, k);
      TakeEntry(lim, b, k);
      assert (a - {k}).Keys == (b - {k}).Keys;
      SameKeysSameIndex(lim, a - {k}, b - {k});
    } else {
      assert b == map[];
    }
  }

  lemma {:induction false} NothingHeld(lim: Limits, es: map<Text, Entry>)
    requires forall k :: k in es ==> es[k].held.None?
    ensures EntryTotals(lim, es).previews == 0
    decreases |es|
  {
    if es != map[] {
      var k :| k in es;
      TakeEntry(lim, es, k);
      NothingHeld(lim, es - {k});
    }
  }

  function Erase(x: Index, k: Text): Index
    requires k in x.entries
  {
    var y := ForgetPreview(x, k);
    y.(entries := y.entries - {k}, bytes := y.bytes - EntryCost(y.lim, k))
  }

  function ForgetUnreadable(x: Index, rel: Text): Index {
    if rel in x.unreadable
    then x.(unreadable := x.unreadable - {rel}, bytes := x.bytes - DirCost(x.lim, rel))
    else x
  }

  function AddUnreadable(x: Index, rel: Text): Index {
    x.(unreadable := x.unreadable + {rel}, bytes := x.bytes + DirCost(x.lim, rel))
  }

  function AddDir(x: Index, rel: Text, d: KnownDir): Index {
    x.(knownDirs := x.knownDirs[rel := d], bytes := x.bytes + DirCost(x.lim, rel))
  }

  function AddEntry(x: Index, rel: Text, st: Stat): Index {
    x.(entries := x.entries[rel := Entry(FormatOf(rel), st, 0, false, false, None)],
       bytes := x.bytes + EntryCost(x.lim, rel))
  }

  function Replace(x: Index, rel: Text, e: Entry): Index {
    x.(entries := x.entries[rel := e])
  }

  function MarkSampled(x: Index, rel: Text): Index
    requires rel in x.entries
  {
    var e := x.entries[rel];
    if e.sampled then x
    else x.(entries := x.entries[rel := e.(sampled := true)], sampled := x.sampled + 1)
  }

  function HoldPreview(x: Index, rel: Text, p: Preview, madeFrom: Stat, recent: bool): Index
    requires rel in x.entries
  {
    var e := x.entries[rel];
    var cost := PreviewCost(x.lim, p);
    x.(entries := x.entries[rel := e.(held := Some(Held(p, cost, madeFrom)), sampled := true)],
       lru := if recent then [rel] + x.lru else x.lru + [rel],
       bytes := x.bytes + cost, previewBytes := x.previewBytes + cost,
       sampled := x.sampled + 1 - SampledMark(e))
  }

  /** The seen mark, and what a changed status does: the part of merge_file up to the sampling. */
  function Restat(x: Index, rel: Text, st: Stat, stamp: nat): Index
    requires rel in x.entries
  {
    var y := Replace(x, rel, x.entries[rel].(seen := stamp));
    if y.entries[rel].stat == st then y else
      var z := ForgetPreview(y, rel);
      Replace(z, rel, z.entries[rel].(queued := false, stat := st))
  }

  // ---- The operations on the whole state

  function StopSampling(s: State): State {
    s.(flags := s.flags.(limitHit := true, samplingStopped := true), files := [])
  }

  /** What the walker, and room_in_index, do when nothing more fits. */
  function EndWalk(s: State): State {
    s.(flags := Flags(true, true, true, s.flags.tooDeep), files := [], dirs := [])
  }

  /** The state after an eviction loop left the index as x. */
  function AfterEviction(s: State, x: Index): State {
    if x.lru == s.ix.lru then s else StopSampling(s).(ix := x)
  }

  /** What only the steps of a whole run change. */
  predicate Same(s: State, t: State) {
    t.gen == s.gen && t.stamp == s.stamp && t.ix.lim == s.ix.lim && t.ix.lost == s.ix.lost
  }

  /** room_in_index: the state after it, and whether there is room. */
  ghost function RoomInIndex(s: State, cost: nat): (r: (State, bool))
    requires Books(s.ix)
    ensures Books(r.0.ix) && OnlyEvicted(s.ix, r.0.ix)
    ensures r.1 <==> s.ix.bytes - s.ix.previewBytes + cost <= s.ix.lim.maxMemory
    ensures r.1 ==> r.0.ix.bytes + cost <= s.ix.lim.maxMemory && r.0 == AfterEviction(s, r.0.ix)
    ensures !r.1 ==> r.0.flags.samplingStopped && r.0.flags.limitHit && r.0.flags.indexFull && r.0.ix.lru == []
    ensures Same(s, r.0)
  {
    var x := EvictToFit(s.ix, cost);
    EvictionFreesPreviews(s.ix, x);
    NoUnderflow(x);
    var t := AfterEviction(s, x);
    if x.bytes + cost <= x.lim.maxMemory then (t, true) else (EndWalk(t), false)
  }

  ghost function NoteUnreadable(s: State, rel: Text): (t: State)
    requires Books(s.ix)
    ensures Same(s, t)
  {
    if rel in s.ix.unreadable then s else
      var (t, room) := RoomInIndex(s, DirCost(s.ix.lim, rel));
      if room then t.(ix := AddUnreadable(t.ix, rel)) else t
  }

  function QueueSample(s: State, rel: Text): State
    requires rel in s.ix.entries
  {
    var e := s.ix.entries[rel];
    if e.sampled || e.queued || s.flags.samplingStopped then s
    else s.(ix := Replace(s.ix, rel, e.(queued := true)), files := s.files + [rel])
  }

  /** The end of merge_file: a file with no preview to have counts as sampled. */
  function Settle(s: State, rel: Text): State
    requires rel in s.ix.entries
  {
    if s.ix.entries[rel].format.NoFormat? then s.(ix := MarkSampled(s.ix, rel)) else QueueSample(s, rel)
  }

  /** The part of merge_file after the entry is there. */
  function Touch(s: State, rel: Text, st: Stat): State
    requires rel in s.ix.entries
  {
    Settle(s.(ix := Restat(s.ix, rel, st, s.stamp)), rel)
  }

  /** merge_file: the state after it, and whether the file is in the index. */
  ghost function MergeFile(s: State, rel: Text, st: Stat): (r: (State, bool))
    requires Books(s.ix)
    ensures Same(s, r.0)
  {
    if rel in s.ix.entries then (Touch(s, rel, st), true) else
      var (t, room) := RoomInIndex(s, EntryCost(s.ix.lim, rel));
      if room then (Touch(t.(ix := AddEntry(t.ix, rel, st)), rel, st), true) else (t, false)
  }

  ghost function MergeDir(s: State, rel: Text, mtime: int): (t: State)
    requires Books(s.ix)
    ensures Same(s, t)
  {
    if rel in s.ix.knownDirs then
      s.(ix := s.ix.(knownDirs := s.ix.knownDirs[rel := KnownDir(mtime, s.stamp)]),
         dirs := if s.ix.knownDirs[rel].mtime != mtime && !s.flags.indexFull then s.dirs + [rel] else s.dirs)
    else if s.flags.indexFull then s
    else if Slashes(rel) >= MAX_WALK_DEPTH then s.(flags := s.flags.(tooDeep := true))
    else
      var (t, room) := RoomInIndex(s, DirCost(s.ix.lim, rel));
      if !room then t else
        t.(ix := AddDir(t.ix, rel, KnownDir(mtime, t.stamp)), dirs := t.dirs + [rel])
  }

  function Slashes(rel: Text): nat {
    if rel == [] then 0 else (if rel[0] == SLASH then 1 else 0) + Slashes(rel[1..])
  }

  /** What the sampler read; `st` is the status of the file it read, `readIn` its generation. */
  function StoreSampled(s: State, rel: Text, readIn: nat, st: Stat, p: Preview): State {
    if readIn != s.gen || rel !in s.ix.entries || s.ix.entries[rel].sampled then s
    else if s.ix.bytes + PreviewCost(s.ix.lim, p) > s.ix.lim.maxMemory then StopSampling(s)
    else
      var x := ForgetPreview(s.ix, rel);
      var y := Replace(x, rel, x.entries[rel].(stat := st));
      s.(ix := HoldPreview(y, rel, p, st, false))
  }

  /** What a request read from an open file with the status `madeFrom`. */
  ghost function StoreRequested(s: State, rel: Text, madeFrom: Stat, p: Preview): (t: State)
    requires Books(s.ix)
    ensures Same(s, t)
  {
    if rel !in s.ix.entries then s else
      ForgetPreviewKeepsBooks(s.ix, rel);
      HoldRequested(s.(ix := ForgetPreview(s.ix, rel)), rel, madeFrom, p)
  }

  ghost function HoldRequested(s: State, rel: Text, madeFrom: Stat, p: Preview): State
    requires Books(s.ix) && rel in s.ix.entries
  {
    var cost := PreviewCost(s.ix.lim, p);
    if s.ix.bytes - s.ix.previewBytes + cost > s.ix.lim.maxMemory then StopSampling(s)
    else
      var t := AfterEviction(s, EvictToFit(s.ix, cost));
      t.(ix := HoldPreview(t.ix, rel, p, madeFrom, true))
  }

  /** A preview that was asked for becomes the most recently used one. */
  function Promote(x: Index, rel: Text): Index {
    x.(lru := [rel] + Without(x.lru, rel))
  }

  // ---- The names of files

  function LowerCase(b: Byte): Byte { if 65 <= b <= 90 then b + 32 else b }

  /** The text after the last '.', if that comes after the last '/'. */
  function Extension(name: Text): Option<Text> {
    if name == [] || name[|name| - 1] == SLASH then None
    else if name[|name| - 1] == DOT then Some([])
    else match Extension(name[..|name| - 1])
      case None => None
      case Some(ext) => Some(ext + [LowerCase(name[|name| - 1])])
  }

  /** scan_format: by the extension, in any case of its letters. */
  function FormatOf(name: Text): Format {
    match Extension(name)
    case None => NoFormat
    case Some(ext) =>
      if ext == [120, 109, 108] || ext == [120, 104, 116, 109, 108] then Xml
      else if ext == [106, 115, 111, 110] || ext == [106, 115, 111, 110, 108] ||
              ext == [110, 100, 106, 115, 111, 110] || ext == [103, 101, 111, 106, 115, 111, 110] then JsonText
      else if ext == [99, 115, 118] then Csv
      else if ext == [104, 116, 109, 108] || ext == [104, 116, 109] then Html
      else NoFormat
  }
}
