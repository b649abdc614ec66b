/** What a pass promises about every name of every directory, said without the
    functions of WalkModel that compute it: which file is copied and what the copy
    holds, what is left alone, what is swept, moved aside and reported. WalkPass
    proves that the walk keeps it. */
module WalkPromise {
  import opened WalkModel
  import X = Xattr

  // ---------------------------------------------------------------------
  // One entry that is not a directory
  // ---------------------------------------------------------------------

  /** Owner, mode and attributes of an object that had `was` and gets those of
      src, as far as the job keeps them. */
  ghost predicate MetaAsked(o: Opts, src: Meta, was: Meta, now: Meta) {
    && (if o.owner then now.uid == src.uid && now.gid == src.gid else now.uid == was.uid && now.gid == was.gid)
    && now.mode == (if o.mode then src.mode else was.mode)
    && (if o.xattrs then X.AllCarried(o.rules, src.xattrs, was.xattrs, now.xattrs) else now.xattrs == was.xattrs)
  }

  /** Nothing the job keeps differs. */
  ghost predicate MetaRight(o: Opts, src: Meta, dst: Meta) {
    && (o.owner ==> dst.uid == src.uid && dst.gid == src.gid)
    && (o.mode ==> dst.mode == src.mode)
    && (o.xattrs ==> X.InStep(o.rules, src.xattrs, dst.xattrs))
  }

  /** c is a new object with the contents of s. */
  ghost predicate IsCopy(o: Opts, s: Leaf, c: Leaf) {
    && MetaAsked(o, s.meta, o.born.(xattrs := map[]), c.meta)
    && match s
       case File(size, mtime, data, _) =>
         c.File? && c.size == size && c.data == data && c.mtime == if o.times then mtime else o.bornTime
       case Link(target, _) => c.Link? && c.target == target
       case Special(format, rdev, _) => c.Special? && c.format == format && c.rdev == rdev
  }

  /** A non-empty directory is never removed. */
  ghost predicate Populated(d: Option<Dst>) {
    d.Some? && d.value.DDir? && exists x :: x in d.value.kids
  }

  /** The name holds a copy, and a populated directory that stood there has moved
      aside. */
  ghost predicate Replaced(o: Opts, s: Leaf, was: Slot, now: Slot) {
    && now.cur.Some? && now.cur.value.DLeaf? && IsCopy(o, s, now.cur.value.leaf)
    && now.aside == if Populated(was.cur) then was.cur else was.aside
  }

  /** The same file, its metadata corrected. */
  ghost predicate Corrected(o: Opts, s: Leaf, d: Leaf, was: Slot, now: Slot)
    requires d.File?
  {
    && now.aside == was.aside && now.cur.Some? && now.cur.value.DLeaf?
    && var f := now.cur.value.leaf;
       f.File? && f.size == d.size && f.mtime == d.mtime && f.data == d.data && MetaAsked(o, s.meta, d.meta, f.meta)
  }

  predicate Large(o: Opts, size: nat) {
    0 < o.chunkThreshold <= size && 0 < o.chunkSize < size
  }

  /** A source file meets a file. */
  ghost predicate FileMeets(o: Opts, s: Leaf, d: Leaf, was: Slot, now: Slot, did: Kind)
    requires s.File? && d.File?
  {
    if o.skipNewer && d.mtime > s.mtime + o.slop then did == SkippedNewer && now == was
    else if d.size != s.size || d.mtime > s.mtime + o.slop || s.mtime > d.mtime + o.slop then
      Replaced(o, s, was, now) && did == if Large(o, s.size) then Chunked else Copied
    else if MetaRight(o, s.meta, d.meta) then did == Clean && now == was
    else did == MetaFixed && Corrected(o, s, d, was, now)
  }

  /** What the pass does about an entry, by what is at its name. */
  ghost predicate LeafHandled(o: Opts, s: Leaf, was: Slot, now: Slot, did: Kind) {
    var there := was.cur.Some? && was.cur.value.DLeaf?;
    match s
    case File(size, _, _, _) =>
      if there && was.cur.value.leaf.File? then FileMeets(o, s, was.cur.value.leaf, was, now, did)
      else Replaced(o, s, was, now) && did == if Large(o, size) then Chunked else Copied
    case Link(target, _) =>
      if there && was.cur.value.leaf.Link? && was.cur.value.leaf.target == target then did == Clean && now == was
      else did == Copied && Replaced(o, s, was, now)
    case Special(format, rdev, _) =>
      if !o.specials then did == Ignored && now == was
      else if there && was.cur.value.leaf.Special? && was.cur.value.leaf.format == format && was.cur.value.leaf.rdev == rdev
      then did == Clean && now == was
      else did == Copied && Replaced(o, s, was, now)
  }

  /** The entry's one record. */
  ghost predicate Recorded(log: multiset<Event>, p: Path, did: Kind) {
    forall k :: log[Did(p, k)] == if k == did then 1 else 0
  }

  ghost predicate NoRecord(log: multiset<Event>, p: Path) {
    forall k :: log[Did(p, k)] == 0
  }

  // ---------------------------------------------------------------------
  // Directories
  // ---------------------------------------------------------------------

  /** The source directory lists this name. */
  ghost predicate Listed(es: seq<Entry>, x: DName) {
    x.Real? && exists i :: 0 <= i < |es| && es[i].name == x.name
  }

  /** Residue of an interrupted copy of another job or pass, which unlink removes. */
  predicate Residue(o: Opts, k: Kids, x: DName) {
    x in k && o.isTemp(x) && !o.isLive(x) && k[x].DLeaf?
  }

  /** What is at a destination-only name after the sweep. */
  function Unswept(o: Opts, k: Kids, x: DName): Option<Dst> {
    if x in k && !Residue(o, k, x) then Some(k[x]) else None
  }

  /** A populated directory stands in the way of this entry. */
  ghost predicate MovesAside(o: Opts, e: Entry, k: Kids, dir: Path) {
    && !o.excluded(dir + [e.name]) && e.node.SLeaf? && (e.node.leaf.Special? ==> o.specials)
    && Real(e.name) in k && Populated(Some(k[Real(e.name)]))
  }

  /** The name a directory gets that stands in the way of one of these entries. */
  ghost predicate AsideName(o: Opts, es: seq<Entry>, k: Kids, dir: Path, x: DName) {
    exists i :: 0 <= i < |es| && x == Stale(es[i].name, o.pass) && MovesAside(o, es[i], k, dir)
  }

  /** How often a name is reported: once as destination-only, unless it is a temp,
      and once if the pass itself moved a directory there. */
  ghost function Reports(o: Opts, es: seq<Entry>, k: Kids, dir: Path, x: DName): nat {
    (if x in k && !o.isTemp(x) && !Listed(es, x) then 1 else 0) + (if AsideName(o, es, k, dir, x) then 1 else 0)
  }

  /** Before and after one pass at one name. */
  ghost predicate SlotHandled(o: Opts, e: Entry, was: Slot, now: Slot, dir: Path, log: multiset<Event>)
    decreases e, 0
  {
    var p := dir + [e.name];
    && log[Walked(p)] == 1
    && if o.excluded(p) then now == was && NoRecord(log, p)
       else match e.node
         case SLeaf(leaf) => exists did :: LeafHandled(o, leaf, was, now, did) && Recorded(log, p, did)
         case SDir(_, _) =>
           var d := if was.cur.Some? && was.cur.value.DDir? then was.cur.value else DDir(map[], o.born);
           && now.aside == was.aside && now.cur.Some? && now.cur.value.DDir? && NoRecord(log, p)
           && DirHandled(o, e.node, d, now.cur.value, p, log)
  }

  /** Before and after one pass in one directory, and in all below it. */
  ghost predicate DirHandled(o: Opts, s: Src, d: Dst, d': Dst, dir: Path, log: multiset<Event>)
    requires s.SDir? && d.DDir? && d'.DDir?
    decreases s, 1
  {
    && MetaAsked(o, s.meta, d.meta, d'.meta)
    && log[DirMeta(dir)] == 1
    && (forall x :: log[Orphan(dir, x)] == Reports(o, s.entries, d.kids, dir, x))
    && (forall x :: !Listed(s.entries, x) && !AsideName(o, s.entries, d.kids, dir, x) ==>
          At(d'.kids, x) == Unswept(o, d.kids, x))
    && EntriesHandled(o, s.entries, d.kids, d'.kids, dir, log)
  }

  ghost predicate EntriesHandled(o: Opts, es: seq<Entry>, k: Kids, k': Kids, dir: Path, log: multiset<Event>)
    decreases es, 0
  {
    forall i :: 0 <= i < |es| ==> SlotHandled(o, es[i], SlotIn(o, k, es[i].name), SlotOut(o, k', es[i].name), dir, log)
  }

  /** The name and its aside name, before the pass ... */
  function SlotIn(o: Opts, k: Kids, n: Name): Slot {
    Slot(if Real(n) in k then Some(k[Real(n)]) else None, Unswept(o, k, Stale(n, o.pass)))
  }

  /** ... and after it. */
  function SlotOut(o: Opts, k: Kids, n: Name): Slot {
    Slot(if Real(n) in k then Some(k[Real(n)]) else None, if Stale(n, o.pass) in k then Some(k[Stale(n, o.pass)]) else None)
  }

  // ---------------------------------------------------------------------
  // Records of other places do not matter
  // ---------------------------------------------------------------------

  /** The directory or entry a record is about. */
  function Where(v: Event): Path {
    match v
    case Walked(p) => p
    case Did(p, _) => p
    case Orphan(d, _) => d
    case DirMeta(p) => p
  }

  ghost predicate SameUnder(a: multiset<Event>, b: multiset<Event>, p: Path) {
    forall v: Event :: p <= Where(v) ==> a[v] == b[v]
  }

  /** A record of the walk of dir, not of dir as an entry. */
  predicate Inside(v: Event, dir: Path) {
    dir < Where(v) || (dir == Where(v) && (v.Orphan? || v.DirMeta?))
  }

  ghost predicate SameInside(a: multiset<Event>, b: multiset<Event>, dir: Path) {
    forall v: Event :: Inside(v, dir) ==> a[v] == b[v]
  }

  lemma UnderIsInside(a: multiset<Event>, b: multiset<Event>, dir: Path, n: Name)
    requires SameInside(a, b, dir)
    ensures SameUnder(a, b, dir + [n])
  {
    forall v: Event | dir + [n] <= Where(v) ensures a[v] == b[v] {
      assert Where(v)[..|dir|] == dir;
      assert Inside(v, dir);
    }
  }

  lemma {:induction false} SlotLogFrame(o: Opts, e: Entry, was: Slot, now: Slot, dir: Path, log: multiset<Event>, more: multiset<Event>)
    requires SlotHandled(o, e, was, now, dir, log) && SameUnder(log, more, dir + [e.name])
    ensures SlotHandled(o, e, was, now, dir, more)
    decreases e, 0
  {
    var p := dir + [e.name];
    assert Where(Walked(p)) == p && forall k :: Where(Did(p, k)) == p;
    if !o.excluded(p) {
      if e.node.SLeaf? {
        var did :| LeafHandled(o, e.node.leaf, was, now, did) && Recorded(log, p, did);
        assert Recorded(more, p, did);
      } else {
        var d := if was.cur.Some? && was.cur.value.DDir? then was.cur.value else DDir(map[], o.born);
        DirLogFrame(o, e.node, d, now.cur.value, p, log, more);
      }
    }
  }

  lemma {:induction false} DirLogFrame(o: Opts, s: Src, d: Dst, d': Dst, dir: Path, log: multiset<Event>, more: multiset<Event>)
    requires s.SDir? && d.DDir? && d'.DDir? && DirHandled(o, s, d, d', dir, log) && SameInside(log, more, dir)
    ensures DirHandled(o, s, d, d', dir, more)
    decreases s, 1
  {
    assert Inside(DirMeta(dir), dir) && forall x :: Inside(Orphan(dir, x), dir);
    forall i | 0 <= i < |s.entries| ensures SameUnder(log, more, dir + [s.entries[i].name]) {
      UnderIsInside(log, more, dir, s.entries[i].name);
    }
    EntriesLogFrame(o, s.entries, d.kids, d'.kids, dir, log, more);
  }

  lemma {:induction false} EntriesLogFrame(o: Opts, es: seq<Entry>, k: Kids, k': Kids, dir: Path, log: multiset<Event>, more: multiset<Event>)
    requires EntriesHandled(o, es, k, k', dir, log)
    requires forall i :: 0 <= i < |es| ==> SameUnder(log, more, dir + [es[i].name])
    ensures EntriesHandled(o, es, k, k', dir, more)
    decreases es, 0
  {
    forall i | 0 <= i < |es| ensures SlotHandled(o, es[i], SlotIn(o, k, es[i].name), SlotOut(o, k', es[i].name), dir, more) {
      SlotLogFrame(o, es[i], SlotIn(o, k, es[i].name), SlotOut(o, k', es[i].name), dir, log, more);
    }
  }
}
