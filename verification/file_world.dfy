/**
  * Files and the clock, as far as the document cache sees them. Time is in nanoseconds. File times
  * come from a clock that may lag the one read by clock_gettime, by less than MIN_CHANGE_AGE.
  */
module FileWorld {
  import opened Bytes

  const NS := 1_000_000_000
  const MIN_CHANGE_AGE := 20_000_000

  /** What stat() reports of a regular file. */
  datatype FileId = FileId(
    dev: nat, ino: nat, size: nat, mtimeSec: int, mtimeNsec: int, ctimeSec: int, ctimeNsec: int)

  /** A device and an inode number. */
  type Node = (nat, nat)

  datatype Inode = Inode(content: Text, mtime: int, ctime: int)

  /** What a path leads to: its canonical form, and the file. */
  datatype Target = Target(canonical: Text, node: Node)

  datatype World = World(now: int, inodes: map<Node, Inode>, targets: map<Text, Target>)

  function IdOf(n: Node, i: Inode): FileId {
    FileId(n.0, n.1, |i.content|, i.mtime / NS, i.mtime % NS, i.ctime / NS, i.ctime % NS)
  }

  function ChangeTime(id: FileId): int { id.ctimeSec * NS + id.ctimeNsec }

  /** file_id: the metadata of the file a path leads to, if it leads to one. */
  function StatOf(w: World, path: Text): Option<FileId> {
    if path in w.targets && w.targets[path].node in w.inodes
    then Some(IdOf(w.targets[path].node, w.inodes[w.targets[path].node])) else None
  }

  /** canonical_under_root; what lies outside the root is not a target here. */
  function CanonicalOf(w: World, path: Text): Option<Text> {
    if path in w.targets then Some(w.targets[path].canonical) else None
  }

  /** What opening the path and reading it to the end would give. */
  function ContentAt(w: World, path: Text): Option<Text> {
    if path in w.targets && w.targets[path].node in w.inodes
    then Some(w.inodes[w.targets[path].node].content) else None
  }

  /** changed_just_now, by seconds first: no arithmetic on whole times that are far apart. */
  predicate ChangedJustNow(now: int, id: FileId) {
    var nowSec, nowNsec := now / NS, now % NS;
    if id.ctimeSec > nowSec then true
    else if id.ctimeSec < nowSec - 1 then false
    else (nowSec - id.ctimeSec) * NS + (nowNsec - id.ctimeNsec) < MIN_CHANGE_AGE
  }

  lemma JustNowIsByAge(now: int, id: FileId)
    requires 0 <= id.ctimeNsec < NS
    ensures ChangedJustNow(now, id) <==> now - ChangeTime(id) < MIN_CHANGE_AGE
  {
    assert now == (now / NS) * NS + now % NS;
  }

  lemma ChangeTimeOfInode(n: Node, i: Inode)
    ensures ChangeTime(IdOf(n, i)) == i.ctime && 0 <= IdOf(n, i).ctimeNsec < NS
  {
  }

  // ---- What can happen to the files

  datatype Event =
    | Pass(now: int)                        // time goes by
    | Write(node: Node, inode: Inode)       // a file is created or changed: its change time is set
    | Unlink(node: Node)
    | Point(path: Text, target: Target)     // a path is made to lead elsewhere
    | Unpoint(path: Text)

  /** The clock does not go back, and a change is stamped with a time less than MIN_CHANGE_AGE old. */
  predicate Legal(w: World, e: Event) {
    match e
    case Pass(now) => w.now <= now
    case Write(_, inode) => w.now - MIN_CHANGE_AGE < inode.ctime <= w.now
    case _ => true
  }

  function Happen(w: World, e: Event): World {
    match e
    case Pass(now) => w.(now := now)
    case Write(node, inode) => w.(inodes := w.inodes[node := inode])
    case Unlink(node) => w.(inodes := w.inodes - {node})
    case Point(path, target) => w.(targets := w.targets[path := target])
    case Unpoint(path) => w.(targets := w.targets - {path})
  }

  /** w may become v: a file is as it was, or bears a change time of after w (but for the lag). */
  ghost predicate Evolves(w: World, v: World) {
    && w.now <= v.now
    && forall n :: n in v.inodes ==>
         (n in w.inodes && v.inodes[n] == w.inodes[n]) || v.inodes[n].ctime > w.now - MIN_CHANGE_AGE
  }

  lemma EventEvolves(w: World, e: Event)
    requires Legal(w, e)
    ensures Evolves(w, Happen(w, e))
  {
  }

  lemma EvolvesTransitive(u: World, v: World, w: World)
    requires Evolves(u, v) && Evolves(v, w)
    ensures Evolves(u, w)
  {
  }

  ghost predicate AllLegal(w: World, es: seq<Event>)
    decreases |es|
  {
    es == [] || (Legal(w, es[0]) && AllLegal(Happen(w, es[0]), es[1..]))
  }

  ghost function HappenAll(w: World, es: seq<Event>): World
    decreases |es|
  {
    if es == [] then w else HappenAll(Happen(w, es[0]), es[1..])
  }

  /** Whatever legal events happen, the world evolves. */
  lemma {:induction false} EventsEvolve(w: World, es: seq<Event>)
    requires AllLegal(w, es)
    ensures Evolves(w, HappenAll(w, es))
    decreases |es|
  {
    if es != [] {
      EventEvolves(w, es[0]);
      EventsEvolve(Happen(w, es[0]), es[1..]);
      EvolvesTransitive(w, Happen(w, es[0]), HappenAll(w, es));
    }
  }

  /** A file that keeps a change time old enough was not written meanwhile. */
  lemma Untouched(u: World, v: World, w: World, n: Node)
    requires Evolves(u, v) && Evolves(v, w) && n in w.inodes
    requires w.inodes[n].ctime <= u.now - MIN_CHANGE_AGE
    ensures n in v.inodes && n in u.inodes && u.inodes[n] == v.inodes[n] == w.inodes[n]
  {
  }
}
