/** Scanner::Shared, updated in place: each method does what the function of its name says. */
module ScannerShared {
  import opened Bytes
  import opened PathOrder
  import opened ScannerState
  import opened ScannerBooks
  import opened ScannerTrees
  import S = ScannerState
  import T = ScannerTrees

  // ---- Walking the ordered maps

  /** At the end of a prefix loop, nothing with the prefix is left. */
  lemma RunIsOver(keys: set<Text>, prefix: Text, it: Option<Text>)
    requires IsFirst(keys, prefix, false, it)
    requires it.None? || !(prefix <= it.value)
    ensures forall k :: k in keys ==> !(prefix <= k)
  {
    forall k | k in keys && prefix <= k
      ensures false
    {
      PrefixRun(prefix, prefix, k);
      if it.Some? {
        LessTotal(it.value, k);
        PrefixRun(prefix, it.value, k);
      }
    }
  }

  /** The keys with a prefix: one run of the order. */
  ghost function Run(keys: set<Text>, prefix: Text): set<Text> {
    set k | k in keys && prefix <= k
  }

  lemma WholeRun(keys: set<Text>, gone: set<Text>, prefix: Text, it: Option<Text>)
    requires IsFirst(keys - gone, prefix, false, it) && (it.None? || !(prefix <= it.value))
    requires forall k :: k in gone ==> k in keys && prefix <= k
    ensures gone == Run(keys, prefix)
  {
    RunIsOver(keys - gone, prefix, it);
    assert forall k :: k in keys ==> k in gone || k in keys - gone;
  }

  /** `erase( it++ )`: the successor is the new first one. */
  lemma NextIsFirst(keys: set<Text>, from: Text, it: Text, next: Option<Text>)
    requires IsFirst(keys, from, false, Some(it)) && IsFirst(keys, it, true, next)
    ensures IsFirst(keys - {it}, from, false, next)
  {
    forall k | k in keys && k != it && Reaches(k, from, false)
      ensures Reaches(k, it, true)
    {
      LessTotal(k, it);
    }
    if next.Some? {
      LessIrreflexive(it);
      if Less(next.value, from) { LessTransitive(it, next.value, from); }
    }
  }

  /** An index with its books in order is what Remove makes of another, if the collections are. */
  lemma IsRemove(x: Index, y: Index, files: set<Text>, dirs: set<Text>, unreadable: set<Text>)
    requires LedgerOk(y) && y.lim == x.lim && y.lost == x.lost
    requires y.entries == x.entries - files && y.lru == Keep(x.lru, files)
    requires y.knownDirs == x.knownDirs - dirs && y.unreadable == x.unreadable - unreadable
    ensures y == Remove(x, files, dirs, unreadable)
  {
  }

  lemma {:induction false} KeepTwice(q: seq<Text>, a: set<Text>, b: set<Text>)
    ensures Keep(Keep(q, a), b) == Keep(q, a + b)
  {
    if q != [] {
      KeepTwice(q[1..], a, b);
      if q[0] !in a { assert ([q[0]] + Keep(q[1..], a))[1..] == Keep(q[1..], a); }
    }
  }

  // ---- Loops, one round at a time

  /** An eviction loop for `cost` that began at s has come to t. */
  ghost predicate Evicting(s: State, t: State, cost: nat) {
    && Books(s.ix) && Books(t.ix) && t == AfterEviction(s, t.ix)
    && OnlyEvicted(s.ix, t.ix) && EvictToFit(t.ix, cost) == EvictToFit(s.ix, cost)
  }

  lemma EvictingOn(s: State, t: State, cost: nat)
    requires Evicting(s, t, cost) && t.ix.bytes + cost > t.ix.lim.maxMemory && t.ix.lru != []
    ensures t.ix.lru[|t.ix.lru| - 1] in t.ix.entries
    ensures Evicting(s, S.StopSampling(t).(ix := S.EvictColdest(t.ix)), cost)
  {
    EvictOnce(t.ix);
    OnlyEvictedTransitive(s.ix, t.ix, S.EvictColdest(t.ix));
  }

  /** While what is asked for can fit at all, there is a preview left to evict. */
  lemma NeverPopsEmpty(s: State, t: State, cost: nat)
    requires Evicting(s, t, cost) && t.ix.bytes + cost > t.ix.lim.maxMemory
    requires s.ix.bytes - s.ix.previewBytes + cost <= s.ix.lim.maxMemory
    ensures t.ix.lru != []
  {
    EvictionFreesPreviews(s.ix, t.ix);
  }

  /** From x0, the files in `gone` have been erased to give x. */
  ghost predicate Erased(x0: Index, x: Index, gone: set<Text>) {
    && Books(x) && NoDup(x0.lru)
    && x == x0.(entries := x0.entries - gone, lru := Keep(x0.lru, gone),
                sampled := x.sampled, bytes := x.bytes, previewBytes := x.previewBytes)
  }

  lemma EraseOn(x0: Index, x: Index, gone: set<Text>, rel: Text)
    requires Erased(x0, x, gone) && rel in x.entries
    ensures Erased(x0, S.Erase(x, rel), gone + {rel})
  {
    EraseKeepsBooks(x, rel);
    EraseCollections(x, rel);
    KeepOneLess(x0.lru, gone, rel);
    assert x0.entries - gone - {rel} == x0.entries - (gone + {rel});
  }

  /** Part of a run of files is erased, up to `it`. */
  ghost predicate EntriesErased(x0: Index, x: Index, prefix: Text, gone: set<Text>, it: Option<Text>) {
    && Erased(x0, x, gone) && x.entries.Keys == x0.entries.Keys - gone
    && (forall k :: k in gone ==> k in x0.entries && prefix <= k)
    && IsFirst(x.entries.Keys, prefix, false, it)
  }

  lemma EntriesErasedOn(x0: Index, x: Index, prefix: Text, gone: set<Text>, rel: Text, next: Option<Text>)
    requires EntriesErased(x0, x, prefix, gone, Some(rel)) && prefix <= rel && IsFirst(x.entries.Keys, rel, true, next)
    ensures rel in x.entries && EntriesErased(x0, S.Erase(x, rel), prefix, gone + {rel}, next)
  {
    NextIsFirst(x.entries.Keys, prefix, rel, next);
    EraseOn(x0, x, gone, rel);
    EraseCollections(x, rel);
    assert S.Erase(x, rel).entries.Keys == x.entries.Keys - {rel};
    assert x0.entries.Keys - (gone + {rel}) == x0.entries.Keys - gone - {rel};
  }

  lemma EraseCollections(x: Index, rel: Text)
    requires LruOk(x) && rel in x.entries
    ensures S.Erase(x, rel).entries == x.entries - {rel} && S.Erase(x, rel).lru == Without(x.lru, rel)
  {
  }

  ghost function DropDirs(x: Index, gone: set<Text>): Index {
    x.(knownDirs := x.knownDirs - gone, bytes := x.bytes - DirTotal(x.lim, gone))
  }

  ghost function DropUnreadable(x: Index, gone: set<Text>): Index {
    x.(unreadable := x.unreadable - gone, bytes := x.bytes - DirTotal(x.lim, gone))
  }

  lemma DropDirsOn(x: Index, gone: set<Text>, rel: Text)
    requires rel in x.knownDirs && rel !in gone
    ensures var y := DropDirs(x, gone);
      DropDirs(x, gone + {rel}) == y.(knownDirs := y.knownDirs - {rel}, bytes := y.bytes - DirCost(x.lim, rel))
  {
    PutDir(x.lim, gone, rel);
    assert x.knownDirs - gone - {rel} == x.knownDirs - (gone + {rel});
  }

  /** Part of a run of directories is dropped, up to `it`. */
  ghost predicate DirsDropped(x0: Index, x: Index, prefix: Text, gone: set<Text>, it: Option<Text>) {
    && x == DropDirs(x0, gone) && x.knownDirs.Keys == x0.knownDirs.Keys - gone
    && (forall k :: k in gone ==> k in x0.knownDirs.Keys && prefix <= k)
    && IsFirst(x.knownDirs.Keys, prefix, false, it)
  }

  lemma DirsDroppedOn(x0: Index, x: Index, prefix: Text, gone: set<Text>, d: Text, next: Option<Text>)
    requires DirsDropped(x0, x, prefix, gone, Some(d)) && prefix <= d && IsFirst(x.knownDirs.Keys, d, true, next)
    ensures d in x.knownDirs
    ensures var y := x.(knownDirs := x.knownDirs - {d}, bytes := x.bytes - DirCost(x.lim, d));
      DirsDropped(x0, y, prefix, gone + {d}, next)
  {
    NextIsFirst(x.knownDirs.Keys, prefix, d, next);
    DropDirsOn(x0, gone, d);
    assert x0.knownDirs.Keys - (gone + {d}) == x0.knownDirs.Keys - gone - {d};
  }

  lemma DropUnreadableOn(x: Index, gone: set<Text>, rel: Text)
    requires rel in x.unreadable && rel !in gone
    ensures DropUnreadable(x, gone + {rel}) == S.ForgetUnreadable(DropUnreadable(x, gone), rel)
  {
    PutDir(x.lim, gone, rel);
    assert x.unreadable - gone - {rel} == x.unreadable - (gone + {rel});
  }

  lemma DropNothing(x: Index)
    ensures DropDirs(x, {}) == x && DropUnreadable(x, {}) == x
  {
    assert x.knownDirs - {} == x.knownDirs;
  }

  lemma {:induction false} DirTotalSplits(lim: Limits, keys: set<Text>, gone: set<Text>)
    requires gone <= keys
    ensures DirTotal(lim, keys) == DirTotal(lim, keys - gone) + DirTotal(lim, gone)
    decreases gone
  {
    if k :| k in gone {
      TakeDir(lim, gone, k);
      TakeDir(lim, keys, k);
      assert keys - {k} - (gone - {k}) == keys - gone;
      DirTotalSplits(lim, keys - {k}, gone - {k});
    } else {
      assert keys - gone == keys;
    }
  }

  lemma DropDirsKeepsLedger(x: Index, gone: set<Text>)
    requires LedgerOk(x) && gone <= x.knownDirs.Keys
    ensures LedgerOk(DropDirs(x, gone))
  {
    DirTotalSplits(x.lim, x.knownDirs.Keys, gone);
    assert (x.knownDirs - gone).Keys == x.knownDirs.Keys - gone;
  }

  lemma DropUnreadableKeepsLedger(x: Index, gone: set<Text>)
    requires LedgerOk(x) && gone <= x.unreadable
    ensures LedgerOk(DropUnreadable(x, gone))
  {
    DirTotalSplits(x.lim, x.unreadable, gone);
  }

  ghost function Just(keys: set<Text>, rel: Text): set<Text> { if rel in keys then {rel} else {} }

  /** The name and the run under it: together the tree. */
  lemma TreeInTwo(keys: set<Text>, rel: Text)
    ensures Just(keys, rel) + Run(keys, rel + [SLASH]) == TreeIn(keys, rel)
    ensures rel !in Run(keys, rel + [SLASH])
  {
  }

  lemma UnreadableTreeInTwo(x: Index, rel: Text)
    ensures var y := S.ForgetUnreadable(x, rel);
      DropUnreadable(y, Run(y.unreadable, rel + [SLASH])) == DropUnreadable(x, TreeIn(x.unreadable, rel))
  {
    TreeInTwo(x.unreadable, rel);
    var y := S.ForgetUnreadable(x, rel);
    var run := Run(x.unreadable, rel + [SLASH]);
    assert Run(y.unreadable, rel + [SLASH]) == run;
    if rel in x.unreadable {
      PutDir(x.lim, run, rel);
      assert run + {rel} == TreeIn(x.unreadable, rel);
      assert x.unreadable - {rel} - run == x.unreadable - (run + {rel});
    } else {
      assert run == TreeIn(x.unreadable, rel);
    }
  }

  lemma ErasedTwice(x0: Index, x1: Index, x2: Index, a: set<Text>, b: set<Text>)
    requires Erased(x0, x1, a) && Erased(x1, x2, b)
    ensures Erased(x0, x2, a + b)
  {
    KeepTwice(x0.lru, a, b);
    assert x0.entries - a - b == x0.entries - (a + b);
  }

  /** The three parts of erase_tree, in its order, add up. */
  lemma TreeInParts(x0: Index, x1: Index, rel: Text)
    requires Erased(x0, x1, TreeIn(x0.entries.Keys, rel))
    ensures var x2 := DropDirs(x1, TreeIn(x1.knownDirs.Keys, rel));
      DropUnreadable(x2, TreeIn(x2.unreadable, rel)) == T.EraseTree(x0, rel)
  {
    var x2 := DropDirs(x1, TreeIn(x1.knownDirs.Keys, rel));
    var x3 := DropUnreadable(x2, TreeIn(x2.unreadable, rel));
    DropDirsKeepsLedger(x1, TreeIn(x1.knownDirs.Keys, rel));
    DropUnreadableKeepsLedger(x2, TreeIn(x2.unreadable, rel));
    IsRemove(x0, x3, TreeIn(x0.entries.Keys, rel), TreeIn(x0.knownDirs.Keys, rel), TreeIn(x0.unreadable, rel));
  }

  // ---- remove_unseen, one round at a time

  predicate Before(k: Text, it: Option<Text>) { it.None? || Less(k, it.value) }

  /** The direct files that were not met, as far as the loop has come. */
  ghost function UnseenUpTo(x: Index, prefix: Text, start: nat, it: Option<Text>): set<Text> {
    set k | k in x.entries.Keys && Direct(prefix, k) && x.entries[k].seen < start && Before(k, it)
  }

  /** The loop stands at a key, and all that it has passed with the prefix is dealt with. */
  ghost predicate StandsAt(x0: Index, x: Index, prefix: Text, start: nat, it: Option<Text>) {
    && Erased(x0, x, UnseenUpTo(x0, prefix, start, it))
    && (it.Some? ==> it.value in x.entries && !Less(it.value, prefix))
  }

  lemma AtStart(x: Index, prefix: Text, start: nat, it: Option<Text>)
    requires Books(x) && IsFirst(x.entries.Keys, prefix, false, it)
    ensures StandsAt(x, x, prefix, start, it)
  {
    forall k | k in x.entries.Keys && Direct(prefix, k)
      ensures !Before(k, it)
    {
      PrefixRun(prefix, prefix, k);
    }
    assert UnseenUpTo(x, prefix, start, it) == {};
    KeepNone(x.lru);
  }

  /** At the end of the loop, every direct file that was not met is gone. */
  lemma AtEnd(x0: Index, x: Index, dir: Text, start: nat, it: Option<Text>)
    requires StandsAt(x0, x, Under(dir), start, it) && (it.None? || !(Under(dir) <= it.value))
    ensures Erased(x0, x, UnseenFiles(x0, dir, start))
  {
    var prefix := Under(dir);
    forall k | k in x0.entries.Keys && Direct(prefix, k)
      ensures Before(k, it)
    {
      if it.Some? {
        LessTotal(k, it.value);
        PrefixRun(prefix, it.value, k);
      }
    }
    assert UnseenUpTo(x0, prefix, start, it) == UnseenFiles(x0, dir, start);
  }

  /** What lies between two places of the loop. */
  lemma UpTo(x0: Index, prefix: Text, start: nat, it: Text, next: Option<Text>)
    requires Before(it, next)
    requires forall k :: k in x0.entries.Keys && Before(k, next) && !Less(k, it) && k != it ==> !Direct(prefix, k)
    requires it in x0.entries.Keys
    ensures Direct(prefix, it) && x0.entries[it].seen < start ==>
      UnseenUpTo(x0, prefix, start, next) == UnseenUpTo(x0, prefix, start, Some(it)) + {it}
    ensures !(Direct(prefix, it) && x0.entries[it].seen < start) ==>
      UnseenUpTo(x0, prefix, start, next) == UnseenUpTo(x0, prefix, start, Some(it))
  {
    forall k | Less(k, it)
      ensures Before(k, next)
    {
      if next.Some? { LessTransitive(k, it, next.value); }
    }
    LessIrreflexive(it);
  }

  /** Keys the loop has not passed are still there. */
  lemma NotPassed(x0: Index, x: Index, prefix: Text, start: nat, it: Text, k: Text)
    requires StandsAt(x0, x, prefix, start, Some(it)) && k in x0.entries && !Less(k, it)
    ensures k in x.entries
  {
  }

  /** One step to the successor, past a direct file that goes or stays. */
  lemma StepOver(x0: Index, x: Index, prefix: Text, start: nat, it: Text, next: Option<Text>)
    requires StandsAt(x0, x, prefix, start, Some(it)) && Direct(prefix, it)
    requires IsFirst(x.entries.Keys, it, true, next)
    ensures x.entries[it].seen >= start ==> StandsAt(x0, x, prefix, start, next)
    ensures x.entries[it].seen < start ==> StandsAt(x0, S.Erase(x, it), prefix, start, next)
  {
    assert x.entries[it] == x0.entries[it];
    forall k | k in x0.entries.Keys && Before(k, next) && !Less(k, it) && k != it
      ensures false
    {
      NotPassed(x0, x, prefix, start, it, k);
      LessTotal(k, it);
    }
    UpTo(x0, prefix, start, it, next);
    if next.Some? {
      LessIrreflexive(it);
      if Less(next.value, prefix) { LessTransitive(it, next.value, prefix); }
    }
    if x.entries[it].seen < start {
      EraseOn(x0, x, UnseenUpTo(x0, prefix, start, Some(it)), it);
    }
  }

  /** The jump past a subdirectory: from sub + "/..." to the first key at or after sub + "0". */
  lemma JumpOver(x0: Index, x: Index, prefix: Text, start: nat, it: Text, slash: nat, next: Option<Text>)
    requires StandsAt(x0, x, prefix, start, Some(it)) && prefix <= it
    requires |prefix| <= slash < |it| && it[slash] == SLASH
    requires IsFirst(x.entries.Keys, it[..slash] + [ZERO], false, next)
    ensures StandsAt(x0, x, prefix, start, next) && Before(it, next)
  {
    var sub := it[..slash];
    assert sub + [SLASH] <= it;
    RunEndsAtZero(sub, it);
    assert prefix <= sub;
    if next.Some? {
      LessTotal(it, next.value);
      if Less(next.value, it) { LessTransitive(next.value, it, sub + [ZERO]); }
      if Less(next.value, prefix) { LessTransitive(it, next.value, prefix); }
    }
    forall k | k in x0.entries.Keys && Before(k, next) && !Less(k, it) && k != it
      ensures !Direct(prefix, k)
    {
      PassedByJump(x0, x, prefix, start, it, sub, next, k);
    }
    UnderIsNotDirect(prefix, sub, it);
    UpTo(x0, prefix, start, it, next);
  }

  lemma NoneBetween(keys: set<Text>, it: Text, next: Option<Text>)
    requires IsFirst(keys, it, true, next)
    ensures forall k :: k in keys ==> (Before(k, next) <==> k == it || Less(k, it))
  {
    forall k | k in keys
      ensures Before(k, next) <==> k == it || Less(k, it)
    {
      LessTotal(k, it);
      if next.Some? && Less(k, it) { LessTransitive(k, it, next.value); }
    }
  }

  ghost function Ahead(keys: set<Text>, it: Option<Text>): set<Text> {
    set k | k in keys && !Before(k, it)
  }

  lemma AheadShrinks(keys: set<Text>, it: Text, next: Option<Text>)
    requires it in keys && Before(it, next) && !Less(it, it)
    ensures Ahead(keys, next) < Ahead(keys, Some(it))
  {
    forall k | Less(k, it)
      ensures Before(k, next)
    {
      if next.Some? { LessTransitive(k, it, next.value); }
    }
    assert it in Ahead(keys, Some(it)) && it !in Ahead(keys, next);
  }

  lemma PassedByJump(x0: Index, x: Index, prefix: Text, start: nat, it: Text, sub: Text, next: Option<Text>, k: Text)
    requires StandsAt(x0, x, prefix, start, Some(it)) && prefix <= sub && sub + [SLASH] <= it
    requires IsFirst(x.entries.Keys, sub + [ZERO], false, next)
    requires k in x0.entries && Before(k, next) && !Less(k, it)
    ensures !Direct(prefix, k)
  {
    NotPassed(x0, x, prefix, start, it, k);
    RunEndsAtZero(sub, it);
    RunEndsAtZero(sub, k);
    LessTotal(k, it);
    if Less(k, sub + [SLASH]) && Less(it, k) { LessTransitive(it, k, sub + [SLASH]); }
    UnderIsNotDirect(prefix, sub, k);
  }

  lemma RemoveTwice(x: Index, a: set<Text>, b: set<Text>, c: set<Text>, a': set<Text>, b': set<Text>, c': set<Text>)
    ensures Remove(Remove(x, a, b, c), a', b', c') == Remove(x, a + a', b + b', c + c')
  {
    KeepTwice(x.lru, a, a');
    assert x.entries - a - a' == x.entries - (a + a');
    assert x.knownDirs - b - b' == x.knownDirs - (b + b');
    assert x.unreadable - c - c' == x.unreadable - (c + c');
  }

  ghost function Members(q: seq<Text>): set<Text> { set d | d in q }

  ghost function EraseTrees(x: Index, roots: set<Text>): Index {
    Remove(x, TreesIn(x.entries.Keys, roots), TreesIn(x.knownDirs.Keys, roots), TreesIn(x.unreadable, roots))
  }

  lemma TreesGrow(keys: set<Text>, roots: set<Text>, rel: Text)
    ensures TreesIn(keys, roots + {rel}) == TreesIn(keys, roots) + TreeIn(keys - TreesIn(keys, roots), rel)
  {
    forall k
      ensures InTreeOfAny(roots + {rel}, k) <==> InTreeOfAny(roots, k) || InTree(rel, k)
    {
      assert rel in roots + {rel};
      if InTreeOfAny(roots, k) {
        var d :| d in roots && InTree(d, k);
        assert d in roots + {rel};
      }
    }
  }

  lemma EraseTreesOn(x: Index, roots: set<Text>, rel: Text)
    ensures T.EraseTree(EraseTrees(x, roots), rel) == EraseTrees(x, roots + {rel})
  {
    var y := EraseTrees(x, roots);
    TreesGrow(x.entries.Keys, roots, rel);
    TreesGrow(x.knownDirs.Keys, roots, rel);
    TreesGrow(x.unreadable, roots, rel);
    assert y.entries.Keys == x.entries.Keys - TreesIn(x.entries.Keys, roots);
    assert y.knownDirs.Keys == x.knownDirs.Keys - TreesIn(x.knownDirs.Keys, roots);
    RemoveTwice(x, TreesIn(x.entries.Keys, roots), TreesIn(x.knownDirs.Keys, roots), TreesIn(x.unreadable, roots),
                TreeIn(y.entries.Keys, rel), TreeIn(y.knownDirs.Keys, rel), TreeIn(y.unreadable, rel));
  }

  lemma NextTree(x1: Index, x: Index, gone: seq<Text>, i: nat)
    requires i < |gone| && Books(x) && x == EraseTrees(x1, Members(gone[..i]))
    ensures T.EraseTree(x, gone[i]) == EraseTrees(x1, Members(gone[..i + 1])) && Books(T.EraseTree(x, gone[i]))
  {
    EraseTreesOn(x1, Members(gone[..i]), gone[i]);
    assert Members(gone[..i + 1]) == Members(gone[..i]) + {gone[i]};
    RemoveKeepsBooks(
      x, TreeIn(x.entries.Keys, gone[i]), TreeIn(x.knownDirs.Keys, gone[i]), TreeIn(x.unreadable, gone[i]));
  }

  lemma EraseNoTrees(x: Index)
    requires LedgerOk(x)
    ensures EraseTrees(x, {}) == x
  {
    assert TreesIn(x.entries.Keys, {}) == {} && TreesIn(x.knownDirs.Keys, {}) == {} && TreesIn(x.unreadable, {}) == {};
    RemoveNothing(x);
  }

  lemma RemoveNothing(x: Index)
    requires LedgerOk(x)
    ensures Remove(x, {}, {}, {}) == x
  {
    KeepNone(x.lru);
    assert x.entries - {} == x.entries && x.knownDirs - {} == x.knownDirs && x.unreadable - {} == x.unreadable;
    var r := Remove(x, {}, {}, {});
    assert r.bytes == x.bytes && r.previewBytes == x.previewBytes && r.sampled == x.sampled;
  }

  lemma UnseenThenTrees(x0: Index, x1: Index, dir: Text, start: nat)
    requires Erased(x0, x1, UnseenFiles(x0, dir, start))
    ensures EraseTrees(x1, GoneDirs(x1, dir, start)) == T.RemoveUnseen(x0, dir, start)
  {
    var gone := GoneDirs(x0, dir, start);
    var unseen := UnseenFiles(x0, dir, start);
    assert GoneDirs(x1, dir, start) == gone;
    assert x0.knownDirs - {} == x0.knownDirs && x0.unreadable - {} == x0.unreadable;
    IsRemove(x0, x1, unseen, {}, {});
    RemoveTwice(x0, unseen, {}, {},
                TreesIn(x1.entries.Keys, gone), TreesIn(x1.knownDirs.Keys, gone), TreesIn(x1.unreadable, gone));
    assert unseen + TreesIn(x1.entries.Keys, gone) == unseen + TreesIn(x0.entries.Keys, gone);
    assert {} + TreesIn(x1.knownDirs.Keys, gone) == TreesIn(x0.knownDirs.Keys, gone);
    assert {} + TreesIn(x1.unreadable, gone) == TreesIn(x0.unreadable, gone);
  }

  class Shared {
    const lim: Limits
    var entries: map<Text, Entry>
    var knownDirs: map<Text, KnownDir>
    var unreadable: set<Text>
    var lru: seq<Text>
    var sampled: int
    var bytes: int
    var previewBytes: int
    ghost var lost: nat
    var dirs: seq<Text>
    var files: seq<Text>
    var limitHit: bool
    var samplingStopped: bool
    var indexFull: bool
    var tooDeep: bool
    var gen: nat
    var stamp: nat

    ghost function Ix(): Index
      reads this
    {
      Index(lim, entries, knownDirs, unreadable, lru, sampled, bytes, previewBytes, lost)
    }

    ghost function View(): State
      reads this
    {
      State(Ix(), dirs, files, Flags(limitHit, samplingStopped, indexFull, tooDeep), gen, stamp)
    }

    constructor (lim: Limits)
      ensures this.lim == lim && Books(Ix())
      ensures View() == State(Index(lim, map[], map[], {}, [], 0, 0, 0, 0), [[]], [],
                              Flags(false, false, false, false), 1, 0)
    {
      this.lim := lim;
      entries, knownDirs, unreadable, lru := map[], map[], {}, [];
      sampled, bytes, previewBytes, lost := 0, 0, 0, 0;
      dirs, files := [[]], [];
      limitHit, samplingStopped, indexFull, tooDeep := false, false, false, false;
      gen, stamp := 1, 0;
    }

    method ForgetPreview(rel: Text)
      requires rel in entries
      modifies this`entries, this`lru, this`bytes, this`previewBytes, this`sampled
      ensures Ix() == S.ForgetPreview(old(Ix()), rel)
    {
      var e := entries[rel];
      if e.held.Some? {
        lru := Without(lru, rel);
        bytes := bytes - e.held.value.cost;
        previewBytes := previewBytes - e.held.value.cost;
        e := e.(held := None);
      }
      if e.sampled {
        sampled := sampled - 1;
        e := e.(sampled := false);
      }
      entries := entries[rel := e];
    }

    method StopSampling()
      modifies this`limitHit, this`samplingStopped, this`files
      ensures View() == S.StopSampling(old(View()))
    {
      limitHit, samplingStopped, files := true, true, [];
    }

    /** The list is not empty whenever a loop comes here: the callers prove it. */
    method EvictColdest()
      requires lru != [] && lru[|lru| - 1] in entries
      modifies this`entries, this`lru, this`bytes, this`previewBytes, this`sampled,
               this`limitHit, this`samplingStopped, this`files
      ensures View() == S.StopSampling(old(View())).(ix := S.EvictColdest(old(Ix())))
    {
      ForgetPreview(lru[|lru| - 1]);
      StopSampling();
    }

    method RoomInIndex(cost: nat) returns (room: bool)
      requires Books(Ix())
      modifies this`entries, this`lru, this`bytes, this`previewBytes, this`sampled,
               this`limitHit, this`samplingStopped, this`files, this`indexFull, this`dirs
      ensures View() == S.RoomInIndex(old(View()), cost).0 && room == S.RoomInIndex(old(View()), cost).1
    {
      ghost var s := View();
      while bytes + cost > lim.maxMemory
        invariant Evicting(s, View(), cost)
        decreases |lru|
      {
        if lru == [] {
          StopSampling();
          indexFull := true;
          dirs := [];
          return false;
        }
        EvictingOn(s, View(), cost);
        EvictOnce(Ix());
        EvictColdest();
      }
      return true;
    }

    method Erase(rel: Text)
      requires rel in entries
      modifies this`entries, this`lru, this`bytes, this`previewBytes, this`sampled
      ensures Ix() == S.Erase(old(Ix()), rel)
    {
      ForgetPreview(rel);
      bytes := bytes - EntryCost(lim, rel);
      entries := entries - {rel};
    }

    method ForgetUnreadable(rel: Text)
      modifies this`unreadable, this`bytes
      ensures Ix() == S.ForgetUnreadable(old(Ix()), rel)
    {
      if rel in unreadable {
        bytes := bytes - DirCost(lim, rel);
        unreadable := unreadable - {rel};
      }
    }

    method NoteUnreadable(rel: Text)
      requires Books(Ix())
      modifies this
      ensures View() == S.NoteUnreadable(old(View()), rel)
    {
      if rel !in unreadable {
        var room := RoomInIndex(DirCost(lim, rel));
        if room {
          bytes := bytes + DirCost(lim, rel);
          unreadable := unreadable + {rel};
        }
      }
    }

    // ---- erase_tree

    /** The name in theEntries and the loop over those under it. */
    method EraseEntriesTree(rel: Text)
      requires Books(Ix())
      modifies this`entries, this`lru, this`bytes, this`previewBytes, this`sampled
      ensures Erased(old(Ix()), Ix(), TreeIn(old(entries).Keys, rel))
    {
      ghost var x0 := Ix();
      KeepNone(lru);
      assert Erased(x0, x0, {});
      if rel in entries {
        EraseOn(x0, x0, {}, rel);
        Erase(rel);
        assert {} + {rel} == Just(x0.entries.Keys, rel);
      }
      ghost var x1 := Ix();
      assert Erased(x0, x1, Just(x0.entries.Keys, rel));
      EraseEntriesUnder(rel + [SLASH]);
      ErasedTwice(x0, x1, Ix(), Just(x0.entries.Keys, rel), Run(x1.entries.Keys, rel + [SLASH]));
      TreeInTwo(x0.entries.Keys, rel);
      assert Run(x1.entries.Keys, rel + [SLASH]) == Run(x0.entries.Keys, rel + [SLASH]);
    }

    method EraseEntriesUnder(prefix: Text)
      requires Books(Ix())
      modifies this`entries, this`lru, this`bytes, this`previewBytes, this`sampled
      ensures Erased(old(Ix()), Ix(), Run(old(entries).Keys, prefix))
    {
      ghost var x0 := Ix();
      ghost var gone: set<Text> := {};
      KeepNone(lru);
      var it := Bound(entries.Keys, prefix, false);
      while it.Some? && prefix <= it.value
        invariant EntriesErased(x0, Ix(), prefix, gone, it)
        decreases |entries|
      {
        var rel := it.value;
        it := Bound(entries.Keys, rel, true);
        EntriesErasedOn(x0, Ix(), prefix, gone, rel, it);
        Erase(rel);
        gone := gone + {rel};
      }
      WholeRun(x0.entries.Keys, gone, prefix, it);
    }

    method DropDir(rel: Text)
      requires rel in knownDirs
      modifies this`knownDirs, this`bytes
      ensures Ix() == old(Ix()).(knownDirs := old(knownDirs) - {rel}, bytes := old(bytes) - DirCost(lim, rel))
    {
      bytes := bytes - DirCost(lim, rel);
      knownDirs := knownDirs - {rel};
    }

    method EraseDirsUnder(prefix: Text)
      modifies this`knownDirs, this`bytes
      ensures Ix() == DropDirs(old(Ix()), Run(old(knownDirs).Keys, prefix))
    {
      ghost var x0 := Ix();
      ghost var gone: set<Text> := {};
      DropNothing(x0);
      var it := Bound(knownDirs.Keys, prefix, false);
      while it.Some? && prefix <= it.value
        invariant DirsDropped(x0, Ix(), prefix, gone, it)
        decreases |knownDirs|
      {
        var d := it.value;
        it := Bound(knownDirs.Keys, d, true);
        DirsDroppedOn(x0, Ix(), prefix, gone, d, it);
        DropDir(d);
        gone := gone + {d};
      }
      WholeRun(x0.knownDirs.Keys, gone, prefix, it);
    }

    method EraseDirsTree(rel: Text)
      modifies this`knownDirs, this`bytes
      ensures Ix() == DropDirs(old(Ix()), TreeIn(old(knownDirs).Keys, rel))
    {
      ghost var x0 := Ix();
      TreeInTwo(knownDirs.Keys, rel);
      ghost var run := Run(knownDirs.Keys, rel + [SLASH]);
      EraseDirsUnder(rel + [SLASH]);
      if rel in knownDirs {
        DropDirsOn(x0, run, rel);
        DropDir(rel);
        assert run + {rel} == TreeIn(x0.knownDirs.Keys, rel);
      } else {
        assert rel !in x0.knownDirs.Keys;
        assert run == TreeIn(x0.knownDirs.Keys, rel);
      }
    }

    method EraseUnreadableUnder(prefix: Text)
      modifies this`unreadable, this`bytes
      ensures Ix() == DropUnreadable(old(Ix()), Run(old(unreadable), prefix))
    {
      ghost var x0 := Ix();
      ghost var gone: set<Text> := {};
      DropNothing(x0);
      var it := Bound(unreadable, prefix, false);
      while it.Some? && prefix <= it.value
        invariant Ix() == DropUnreadable(x0, gone)
        invariant forall k :: k in gone ==> k in x0.unreadable && prefix <= k
        invariant unreadable == x0.unreadable - gone && IsFirst(unreadable, prefix, false, it)
        decreases |unreadable|
      {
        var d := it.value;
        it := Bound(unreadable, d, true);
        NextIsFirst(unreadable, prefix, d, it);
        DropUnreadableOn(x0, gone, d);
        ForgetUnreadable(d);
        gone := gone + {d};
      }
      WholeRun(x0.unreadable, gone, prefix, it);
    }

    method EraseTree(rel: Text)
      requires Books(Ix())
      modifies this`entries, this`lru, this`bytes, this`previewBytes, this`sampled,
               this`knownDirs, this`unreadable
      ensures Ix() == T.EraseTree(old(Ix()), rel)
    {
      ghost var x0 := Ix();
      EraseEntriesTree(rel);
      TreeInParts(x0, Ix(), rel);
      EraseDirsTree(rel);
      UnreadableTreeInTwo(Ix(), rel);
      ForgetUnreadable(rel);
      EraseUnreadableUnder(rel + [SLASH]);
    }

    // ---- remove_unseen

    method EraseUnseen(dir: Text, start: nat)
      requires Books(Ix())
      modifies this`entries, this`lru, this`bytes, this`previewBytes, this`sampled
      ensures Erased(old(Ix()), Ix(), UnseenFiles(old(Ix()), dir, start))
    {
      ghost var x0 := Ix();
      var prefix := Under(dir);
      var it := Bound(entries.Keys, prefix, false);
      AtStart(x0, prefix, start, it);
      while it.Some? && prefix <= it.value
        invariant StandsAt(x0, Ix(), prefix, start, it)
        decreases Ahead(x0.entries.Keys, it)
      {
        var rel := it.value;
        LessIrreflexive(rel);
        match FindSlash(rel, |prefix|) {
          case None =>
            it := Bound(entries.Keys, rel, true);
            StepOver(x0, Ix(), prefix, start, rel, it);
            if entries[rel].seen < start {
              Erase(rel);
            }
          case Some(slash) =>
            it := Bound(entries.Keys, rel[..slash] + [ZERO], false);
            JumpOver(x0, Ix(), prefix, start, rel, slash, it);
        }
        AheadShrinks(x0.entries.Keys, rel, it);
      }
      AtEnd(x0, Ix(), dir, start, it);
    }

    /** The loop over theKnownDirs that collects the direct ones a listing did not meet. */
    method CollectGone(dir: Text, start: nat) returns (gone: seq<Text>)
      ensures Members(gone) == GoneDirs(Ix(), dir, start)
    {
      gone := [];
      var prefix := Under(dir);
      var it := Bound(knownDirs.Keys, prefix, false);
      forall k | k in knownDirs.Keys && Direct(prefix, k)
        ensures !Before(k, it)
      {
        PrefixRun(prefix, prefix, k);
      }
      while it.Some? && prefix <= it.value
        invariant it.Some? ==> it.value in knownDirs && !Less(it.value, prefix)
        invariant forall d :: d in gone <==>
          d in knownDirs && Direct(prefix, d) && knownDirs[d].seen < start && Before(d, it)
        decreases Ahead(knownDirs.Keys, it)
      {
        var d := it.value;
        it := Bound(knownDirs.Keys, d, true);
        LessIrreflexive(d);
        AheadShrinks(knownDirs.Keys, d, it);
        NoneBetween(knownDirs.Keys, d, it);
        if it.Some? && Less(it.value, prefix) { LessTransitive(d, it.value, prefix); }
        if knownDirs[d].seen < start && FindSlash(d, |prefix|).None? {
          gone := gone + [d];
        }
      }
      forall k | k in knownDirs.Keys && Direct(prefix, k)
        ensures Before(k, it)
      {
        if it.Some? {
          LessTotal(k, it.value);
          PrefixRun(prefix, it.value, k);
        }
      }
    }

    method RemoveUnseen(dir: Text, start: nat)
      requires Books(Ix())
      modifies this`entries, this`lru, this`bytes, this`previewBytes, this`sampled,
               this`knownDirs, this`unreadable
      ensures Ix() == T.RemoveUnseen(old(Ix()), dir, start)
    {
      EraseUnseen(dir, start);
      ghost var x1 := Ix();
      var gone := CollectGone(dir, start);
      EraseNoTrees(x1);
      assert Members(gone[..0]) == {};
      for i := 0 to |gone|
        invariant Ix() == EraseTrees(x1, Members(gone[..i])) && Books(Ix())
      {
        NextTree(x1, Ix(), gone, i);
        EraseTree(gone[i]);
      }
      assert gone[..|gone|] == gone;
      UnseenThenTrees(old(Ix()), x1, dir, start);
    }

    // ---- merge_file, merge_dir

    method QueueSample(rel: Text)
      requires rel in entries
      modifies this`entries, this`files
      ensures View() == S.QueueSample(old(View()), rel)
    {
      var e := entries[rel];
      if e.sampled || e.queued || samplingStopped { return; }
      entries := entries[rel := e.(queued := true)];
      files := files + [rel];
    }

    method Restat(rel: Text, st: Stat)
      requires rel in entries
      modifies this`entries, this`lru, this`bytes, this`previewBytes, this`sampled
      ensures Ix() == S.Restat(old(Ix()), rel, st, stamp)
    {
      entries := entries[rel := entries[rel].(seen := stamp)];
      if entries[rel].stat != st {
        ForgetPreview(rel);
        entries := entries[rel := entries[rel].(queued := false, stat := st)];
      }
    }

    method Settle(rel: Text)
      requires rel in entries
      modifies this`entries, this`sampled, this`files
      ensures View() == S.Settle(old(View()), rel)
    {
      if entries[rel].format.NoFormat? {
        if !entries[rel].sampled {
          entries := entries[rel := entries[rel].(sampled := true)];
          sampled := sampled + 1;
        }
      } else {
        QueueSample(rel);
      }
    }

    /** merge_file once the entry is there. */
    method Touch(rel: Text, st: Stat)
      requires rel in entries
      modifies this`entries, this`lru, this`bytes, this`previewBytes, this`sampled, this`files
      ensures View() == S.Touch(old(View()), rel, st)
    {
      RestatFrame(Ix(), rel, st, stamp);
      Restat(rel, st);
      Settle(rel);
    }

    method MergeFile(rel: Text, st: Stat) returns (merged: bool)
      requires Books(Ix())
      modifies this
      ensures View() == S.MergeFile(old(View()), rel, st).0 && merged == S.MergeFile(old(View()), rel, st).1
    {
      if rel !in entries {
        var room := RoomInIndex(EntryCost(lim, rel));
        if !room { return false; }
        AddEntry(rel, st);
      }
      Touch(rel, st);
      return true;
    }

    method AddEntry(rel: Text, st: Stat)
      modifies this`entries, this`bytes
      ensures Ix() == S.AddEntry(old(Ix()), rel, st)
    {
      entries := entries[rel := Entry(FormatOf(rel), st, 0, false, false, None)];
      bytes := bytes + EntryCost(lim, rel);
    }

    method MergeDir(rel: Text, mtime: int)
      requires Books(Ix())
      modifies this
      ensures View() == S.MergeDir(old(View()), rel, mtime)
    {
      if rel in knownDirs {
        if knownDirs[rel].mtime != mtime && !indexFull { dirs := dirs + [rel]; }
        knownDirs := knownDirs[rel := KnownDir(mtime, stamp)];
        return;
      }
      if indexFull { return; }
      if Slashes(rel) >= MAX_WALK_DEPTH {
        tooDeep := true;
        return;
      }
      var room := RoomInIndex(DirCost(lim, rel));
      if !room { return; }
      knownDirs := knownDirs[rel := KnownDir(mtime, stamp)];
      bytes := bytes + DirCost(lim, rel);
      dirs := dirs + [rel];
    }

    // ---- store_sampled, store_requested

    method HoldPreview(rel: Text, p: Preview, madeFrom: Stat, recent: bool)
      requires rel in entries
      modifies this`entries, this`lru, this`bytes, this`previewBytes, this`sampled
      ensures Ix() == S.HoldPreview(old(Ix()), rel, p, madeFrom, recent)
    {
      var cost := PreviewCost(lim, p);
      if !entries[rel].sampled { sampled := sampled + 1; }
      entries := entries[rel := entries[rel].(held := Some(Held(p, cost, madeFrom)), sampled := true)];
      bytes := bytes + cost;
      previewBytes := previewBytes + cost;
      lru := if recent then [rel] + lru else lru + [rel];
    }

    method StoreSampled(rel: Text, readIn: nat, st: Stat, p: Preview)
      modifies this`entries, this`lru, this`bytes, this`previewBytes, this`sampled,
               this`limitHit, this`samplingStopped, this`files
      ensures View() == S.StoreSampled(old(View()), rel, readIn, st, p)
    {
      if readIn != gen || rel !in entries || entries[rel].sampled { return; }
      if bytes + PreviewCost(lim, p) > lim.maxMemory {
        StopSampling();
        return;
      }
      ForgetPreview(rel);
      entries := entries[rel := entries[rel].(stat := st)];
      HoldPreview(rel, p, st, false);
    }

    method StoreRequested(rel: Text, madeFrom: Stat, p: Preview)
      requires Books(Ix())
      modifies this`entries, this`lru, this`bytes, this`previewBytes, this`sampled,
               this`limitHit, this`samplingStopped, this`files
      ensures View() == S.StoreRequested(old(View()), rel, madeFrom, p)
    {
      if rel !in entries { return; }
      ForgetPreviewKeepsBooks(Ix(), rel);
      ForgetPreview(rel);
      HoldRequested(rel, madeFrom, p);
    }

    method HoldRequested(rel: Text, madeFrom: Stat, p: Preview)
      requires Books(Ix()) && rel in entries
      modifies this`entries, this`lru, this`bytes, this`previewBytes, this`sampled,
               this`limitHit, this`samplingStopped, this`files
      ensures View() == S.HoldRequested(old(View()), rel, madeFrom, p)
    {
      var cost := PreviewCost(lim, p);
      if bytes - previewBytes + cost > lim.maxMemory {
        StopSampling();
        return;
      }
      EvictFor(cost);
      HoldPreview(rel, p, madeFrom, true);
    }

    /** The loop of store_requested: it asks nothing of theLru, and never finds it empty. */
    method EvictFor(cost: nat)
      requires Books(Ix()) && bytes - previewBytes + cost <= lim.maxMemory
      modifies this`entries, this`lru, this`bytes, this`previewBytes, this`sampled,
               this`limitHit, this`samplingStopped, this`files
      ensures View() == AfterEviction(old(View()), EvictToFit(old(Ix()), cost))
    {
      ghost var s := View();
      while bytes + cost > lim.maxMemory
        invariant Evicting(s, View(), cost)
        decreases |lru|
      {
        NeverPopsEmpty(s, View(), cost);
        EvictingOn(s, View(), cost);
        EvictOnce(Ix());
        EvictColdest();
      }
    }
  }
}
