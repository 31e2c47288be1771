/** What leaves the index together: a subtree, or what a whole listing did not see. */
module ScannerTrees {
  import opened Bytes
  import opened PathOrder
  import opened ScannerState

  /** A name, and everything under it. */
  predicate InTree(rel: Text, k: Text) {
    k == rel || rel + [SLASH] <= k
  }

  ghost function TreeIn(keys: set<Text>, rel: Text): set<Text> {
    set k | k in keys && InTree(rel, k)
  }

  function Under(dir: Text): Text { if dir == [] then [] else dir + [SLASH] }

  /** A name directly in the directory whose prefix is given. */
  predicate Direct(prefix: Text, k: Text) {
    prefix <= k && SLASH !in k[|prefix|..]
  }

  /** The counters as the ledger wants them. */
  ghost function Rebook(x: Index): Index {
    var t := EntryTotals(x.lim, x.entries);
    x.(sampled := t.sampled, previewBytes := t.previews,
       bytes := t.index + t.previews + DirTotal(x.lim, x.knownDirs.Keys) + DirTotal(x.lim, x.unreadable) + x.lost)
  }

  ghost function Remove(x: Index, files: set<Text>, dirs: set<Text>, unreadable: set<Text>): Index {
    Rebook(x.(entries := x.entries - files, knownDirs := x.knownDirs - dirs,
              unreadable := x.unreadable - unreadable, lru := Keep(x.lru, files)))
  }

  /** erase_tree: exactly the name and everything under it goes, from all three collections. */
  ghost function EraseTree(x: Index, rel: Text): Index {
    Remove(x, TreeIn(x.entries.Keys, rel), TreeIn(x.knownDirs.Keys, rel), TreeIn(x.unreadable, rel))
  }

  /** The direct subdirectories that were known and that a listing begun at `start` did not meet. */
  ghost function GoneDirs(x: Index, dir: Text, start: nat): set<Text> {
    set d | d in x.knownDirs && Direct(Under(dir), d) && x.knownDirs[d].seen < start
  }

  ghost predicate InTreeOfAny(roots: set<Text>, k: Text) {
    exists d :: d in roots && InTree(d, k)
  }

  /** The part of some keys that lies in the trees of the given roots. */
  ghost function TreesIn(keys: set<Text>, roots: set<Text>): set<Text> {
    set k | k in keys && InTreeOfAny(roots, k)
  }

  ghost function UnseenFiles(x: Index, dir: Text, start: nat): set<Text> {
    set k | k in x.entries && Direct(Under(dir), k) && x.entries[k].seen < start
  }

  /** remove_unseen: the direct files not met go, and the whole tree of each direct directory not met. */
  ghost function RemoveUnseen(x: Index, dir: Text, start: nat): Index {
    var gone := GoneDirs(x, dir, start);
    Remove(x, UnseenFiles(x, dir, start) + TreesIn(x.entries.Keys, gone), TreesIn(x.knownDirs.Keys, gone),
           TreesIn(x.unreadable, gone))
  }

  // ---- The books after a removal

  lemma OneLess(es: map<Text, Entry>, gone: set<Text>, k: Text)
    ensures es - {k} - gone == if k in gone then es - gone else es - gone - {k}
  {
  }

  lemma {:induction false} FewerEntriesLess(lim: Limits, es: map<Text, Entry>, gone: set<Text>)
    ensures var t, u := EntryTotals(lim, es), EntryTotals(lim, es - gone);
      u.previews <= t.previews && u.index <= t.index
    decreases |es|
  {
    if k :| k in es {
      TakeEntry(lim, es, k);
      FewerEntriesLess(lim, es - {k}, gone);
      OneLess(es, gone, k);
      if k !in gone { TakeEntry(lim, es - gone, k); }
    } else {
      assert es - gone == es;
    }
  }

  lemma {:induction false} FewerDirsLess(lim: Limits, dirs: set<Text>, gone: set<Text>)
    ensures DirTotal(lim, dirs - gone) <= DirTotal(lim, dirs)
  {
    if k :| k in dirs {
      TakeDir(lim, dirs, k);
      FewerDirsLess(lim, dirs - {k}, gone);
      if k in gone {
        assert dirs - {k} - gone == dirs - gone;
      } else {
        TakeDir(lim, dirs - gone, k);
        assert dirs - {k} - gone == dirs - gone - {k};
      }
    } else {
      assert dirs - gone == dirs;
    }
  }

  lemma RemoveKeepsBooks(x: Index, files: set<Text>, dirs: set<Text>, unreadable: set<Text>)
    requires Books(x)
    ensures Books(Remove(x, files, dirs, unreadable))
  {
    FewerEntriesLess(x.lim, x.entries, files);
    FewerDirsLess(x.lim, x.knownDirs.Keys, dirs);
    FewerDirsLess(x.lim, x.unreadable, unreadable);
    assert (x.knownDirs - dirs).Keys == x.knownDirs.Keys - dirs;
    KeepIsExact(x.lru, files);
  }

  /**
    * A file that the listing just met stays, unless a directory of its name was known and not met:
    * then it goes with that directory's tree, although it is there.
    */
  lemma MetFileStays(x: Index, dir: Text, start: nat, k: Text)
    requires k in x.entries && Direct(Under(dir), k) && x.entries[k].seen >= start
    ensures k in RemoveUnseen(x, dir, start).entries <==>
            !(k in x.knownDirs && x.knownDirs[k].seen < start)
  {
    var gone := GoneDirs(x, dir, start);
    assert InTree(k, k);
    forall d | d in gone && d != k
      ensures !InTree(d, k)
    {
      UnderIsNotDirect(Under(dir), d, k);
    }
  }

  lemma UnderIsNotDirect(prefix: Text, d: Text, k: Text)
    requires prefix <= d
    ensures d + [SLASH] <= k ==> !Direct(prefix, k)
  {
    if d + [SLASH] <= k {
      assert k[|prefix|..][|d| - |prefix|] == SLASH;
    }
  }
}
