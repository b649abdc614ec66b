/** The dual-tree walk of agent/src/walker.c on values: what handling one source
    entry does to the destination, and the plain, unsharded recursive walk.

    A run is free of faults and not a dry run. The source is a tree whose
    directories list their entries in name order; the destination directory is a
    map. A non-empty directory in the way of an entry of another type is renamed
    aside; the name it gets, unique to the pass, is `Stale(n, pass)`. */
module WalkModel {
  import X = Xattr

  type Name = string
  type Path = seq<Name>

  datatype Option<+T> = None | Some(value: T)

  datatype Meta = Meta(uid: int, gid: int, mode: int, xattrs: X.Xattrs)

  /** Everything but a directory. Times are nanoseconds. */
  datatype Leaf =
    | File(size: nat, mtime: int, data: seq<int>, meta: Meta)
    | Link(target: string, meta: Meta)
    | Special(format: int, rdev: int, meta: Meta)

  datatype Src = SLeaf(leaf: Leaf) | SDir(entries: seq<Entry>, meta: Meta)
  datatype Entry = Entry(name: Name, node: Src)

  datatype DName = Real(name: Name) | Stale(of: Name, pass: nat)
  datatype Dst = DLeaf(leaf: Leaf) | DDir(kids: Kids, meta: Meta)
  type Kids = map<DName, Dst>

  /** The job options the walk reads. */
  datatype Opts = Opts(
    owner: bool, mode: bool, times: bool, xattrs: bool, specials: bool,
    skipNewer: bool,               // copy.on_dest_newer: skip
    slop: int,                     // mtime_slop_ns
    rules: X.Rules,
    chunkThreshold: nat, chunkSize: nat,
    excluded: Path -> bool,        // the include/exclude filters
    isTemp: DName -> bool,         // the name starts with the temp prefix
    isLive: DName -> bool,         // ... and is tagged with this job and pass
    pass: nat,
    born: Meta, bornTime: int      // what a new object has before metadata is applied
  )

  datatype Kind = Copied | Chunked | MetaFixed | Clean | SkippedNewer | Ignored

  /** What the counters and the journal record. */
  datatype Event =
    | Walked(path: Path)                 // entries_walked
    | Did(path: Path, kind: Kind)
    | Orphan(dir: Path, name: DName)     // JR_ORPHAN
    | DirMeta(path: Path)                // JR_DIR_META

  // ---------------------------------------------------------------------
  // One leaf
  // ---------------------------------------------------------------------

  function ApplyMeta(o: Opts, src: Meta, base: Meta, xattrs: X.Xattrs): Meta {
    Meta(if o.owner then src.uid else base.uid,
         if o.owner then src.gid else base.gid,
         if o.mode then src.mode else base.mode, xattrs)
  }

  /** The object a copy leaves at the name. */
  function Made(o: Opts, s: Leaf): Leaf {
    var x: X.Xattrs := if o.xattrs then X.Copied(o.rules, s.meta.xattrs, map[]) else map[];
    var m := ApplyMeta(o, s.meta, o.born, x);
    match s
    case File(size, mtime, data, _) => File(size, if o.times then mtime else o.bornTime, data, m)
    case Link(target, _) => Link(target, m)
    case Special(format, rdev, _) => Special(format, rdev, m)
  }

  function Abs(x: int): nat { if x < 0 then -x else x }

  predicate TimesEqual(o: Opts, a: int, b: int) { Abs(a - b) <= o.slop }

  predicate DestIsNewer(o: Opts, src: int, dst: int) { dst - src > o.slop }

  predicate ShouldChunk(o: Opts, size: nat) {
    o.chunkThreshold > 0 && size >= o.chunkThreshold && o.chunkSize > 0 && size > o.chunkSize
  }

  predicate MetaDiffers(o: Opts, s: Meta, d: Meta) {
    || (o.owner && (d.uid != s.uid || d.gid != s.gid))
    || (o.mode && d.mode != s.mode)
  }

  predicate XattrsDiffer(o: Opts, s: Meta, d: Meta) {
    o.xattrs && !X.Equal(o.rules, s.xattrs, d.xattrs)
  }

  /** handle_entry's decision for a non-directory. */
  function Verdict(o: Opts, s: Leaf, ds: Option<Dst>): Kind {
    var there := ds.Some? && ds.value.DLeaf?;
    match s
    case File(size, mtime, _, m) =>
      if there && ds.value.leaf.File? then
        var d := ds.value.leaf;
        if o.skipNewer && DestIsNewer(o, mtime, d.mtime) then SkippedNewer
        else if d.size == size && TimesEqual(o, mtime, d.mtime) then
          if MetaDiffers(o, m, d.meta) || XattrsDiffer(o, m, d.meta) then MetaFixed else Clean
        else if ShouldChunk(o, size) then Chunked else Copied
      else if ShouldChunk(o, size) then Chunked else Copied
    case Link(target, _) =>
      if there && ds.value.leaf.Link? && ds.value.leaf.target == target then Clean else Copied
    case Special(format, rdev, _) =>
      if !o.specials then Ignored
      else if there && ds.value.leaf.Special? && ds.value.leaf.format == format
              && ds.value.leaf.rdev == rdev then Clean
      else Copied
  }

  function FixedMeta(o: Opts, s: Meta, d: Meta): Meta {
    ApplyMeta(o, s, d,
              if XattrsDiffer(o, s, d) then X.Copied(o.rules, s.xattrs, d.xattrs) else d.xattrs)
  }

  /** The state of one name: what is there, and what was renamed aside. */
  datatype Slot = Slot(cur: Option<Dst>, aside: Option<Dst>)

  predicate InTheWay(ds: Option<Dst>) {
    ds.Some? && ds.value.DDir? && ds.value.kids != map[]
  }

  /** remove_dst: a non-empty directory is renamed aside, anything else goes. */
  function AsideAfter(s: Slot): Option<Dst> {
    if InTheWay(s.cur) then s.cur else s.aside
  }

  /** The slot once the entry is fully handled, chunked copy included. */
  function LeafSlot(o: Opts, s: Leaf, slot: Slot): Slot {
    match Verdict(o, s, slot.cur)
    case Copied => Slot(Some(DLeaf(Made(o, s))), AsideAfter(slot))
    case Chunked => Slot(Some(DLeaf(Made(o, s))), AsideAfter(slot))
    case MetaFixed =>
      var d := slot.cur.value.leaf;
      Slot(Some(DLeaf(File(d.size, d.mtime, d.data, FixedMeta(o, s.meta, d.meta)))), slot.aside)
    case _ => slot
  }

  /** The slot when the walker moves on: a chunked file is only queued. */
  function LeafSlotQueued(o: Opts, s: Leaf, slot: Slot): Slot {
    if Verdict(o, s, slot.cur) == Chunked then
      Slot(if slot.cur.Some? && slot.cur.value.DLeaf? && slot.cur.value.leaf.File?
           then slot.cur else None, AsideAfter(slot))
    else LeafSlot(o, s, slot)
  }

  function AsideLog(o: Opts, s: Leaf, slot: Slot, dir: Path, n: Name): multiset<Event> {
    if Verdict(o, s, slot.cur) in {Copied, Chunked} && InTheWay(slot.cur)
    then multiset{Orphan(dir, Stale(n, o.pass))} else multiset{}
  }

  // ---------------------------------------------------------------------
  // Slots of a directory
  // ---------------------------------------------------------------------

  function GetSlot(o: Opts, k: Kids, n: Name): Slot {
    Slot(if Real(n) in k then Some(k[Real(n)]) else None,
         if Stale(n, o.pass) in k then Some(k[Stale(n, o.pass)]) else None)
  }

  function PutSlot(o: Opts, k: Kids, n: Name, s: Slot): Kids {
    (k - {Real(n), Stale(n, o.pass)})
    + (if s.cur.Some? then map[Real(n) := s.cur.value] else map[])
    + (if s.aside.Some? then map[Stale(n, o.pass) := s.aside.value] else map[])
  }

  function At(k: Kids, x: DName): Option<Dst> {
    if x in k then Some(k[x]) else None
  }

  lemma PutAt(o: Opts, k: Kids, n: Name, s: Slot, x: DName)
    ensures At(PutSlot(o, k, n, s), x) ==
            if x == Real(n) then s.cur else if x == Stale(n, o.pass) then s.aside else At(k, x)
  {
  }

  lemma SameKids(a: Kids, b: Kids)
    requires forall x :: At(a, x) == At(b, x)
    ensures a == b
  {
    forall x ensures x in a <==> x in b { assert At(a, x) == At(b, x); }
    forall x | x in a ensures a[x] == b[x] { assert At(a, x) == At(b, x); }
  }

  lemma GetPut(o: Opts, k: Kids, n: Name, s: Slot, m: Name)
    ensures GetSlot(o, PutSlot(o, k, n, s), m) == if m == n then s else GetSlot(o, k, m)
  {
    PutAt(o, k, n, s, Real(m));
    PutAt(o, k, n, s, Stale(m, o.pass));
  }

  lemma PutGet(o: Opts, k: Kids, n: Name)
    ensures PutSlot(o, k, n, GetSlot(o, k, n)) == k
  {
    forall x ensures At(PutSlot(o, k, n, GetSlot(o, k, n)), x) == At(k, x) {
      PutAt(o, k, n, GetSlot(o, k, n), x);
    }
    SameKids(PutSlot(o, k, n, GetSlot(o, k, n)), k);
  }

  lemma PutPut(o: Opts, k: Kids, n: Name, s: Slot, t: Slot)
    ensures PutSlot(o, PutSlot(o, k, n, s), n, t) == PutSlot(o, k, n, t)
  {
    var a, b := PutSlot(o, PutSlot(o, k, n, s), n, t), PutSlot(o, k, n, t);
    forall x ensures At(a, x) == At(b, x) {
      PutAt(o, PutSlot(o, k, n, s), n, t, x);
      PutAt(o, k, n, s, x);
      PutAt(o, k, n, t, x);
    }
    SameKids(a, b);
  }

  lemma PutCommutes(o: Opts, k: Kids, n: Name, s: Slot, m: Name, t: Slot)
    requires n != m
    ensures PutSlot(o, PutSlot(o, k, n, s), m, t) == PutSlot(o, PutSlot(o, k, m, t), n, s)
  {
    var ks, kt := PutSlot(o, k, n, s), PutSlot(o, k, m, t);
    forall x ensures At(PutSlot(o, ks, m, t), x) == At(PutSlot(o, kt, n, s), x) {
      PutAt(o, ks, m, t, x);
      PutAt(o, k, n, s, x);
      PutAt(o, kt, n, s, x);
      PutAt(o, k, m, t, x);
    }
    SameKids(PutSlot(o, ks, m, t), PutSlot(o, kt, n, s));
  }

  predicate Named(es: seq<Entry>, n: Name) {
    exists i :: 0 <= i < |es| && es[i].name == n
  }

  predicate IsOrphan(es: seq<Entry>, x: DName) {
    !(x.Real? && Named(es, x.name))
  }

  /** Residue of an interrupted copy: swept, unless it is live work of this
      pass or (a directory) unlink cannot remove it. */
  predicate Reclaimed(o: Opts, es: seq<Entry>, k: Kids, x: DName)
    requires x in k
  {
    IsOrphan(es, x) && o.isTemp(x) && !o.isLive(x) && k[x].DLeaf?
  }

  function Swept(o: Opts, es: seq<Entry>, k: Kids): Kids {
    map x | x in k && !Reclaimed(o, es, k, x) :: k[x]
  }

  ghost function OrphanLog(o: Opts, es: seq<Entry>, k: Kids, dir: Path): multiset<Event> {
    multiset(set x | x in k && IsOrphan(es, x) && !o.isTemp(x) :: Orphan(dir, x))
  }

  function Mkdir(o: Opts, cur: Option<Dst>): (r: Dst)
    ensures r.DDir?
  {
    if cur.Some? && cur.value.DDir? then cur.value else DDir(map[], o.born)
  }

  function DirMetaOf(o: Opts, s: Meta, d: Meta): Meta {
    ApplyMeta(o, s, d, if o.xattrs then X.Copied(o.rules, s.xattrs, d.xattrs) else d.xattrs)
  }

  // ---------------------------------------------------------------------
  // The plain walk
  // ---------------------------------------------------------------------

  datatype SlotRes = SlotRes(slot: Slot, log: multiset<Event>)
  datatype KidsRes = KidsRes(kids: Kids, log: multiset<Event>)
  datatype DirRes = DirRes(dst: Dst, log: multiset<Event>)

  /** handle_entry, descending into a directory at once. */
  ghost function PlainSlot(o: Opts, e: Entry, slot: Slot, dir: Path): SlotRes
    decreases e, 0
  {
    var p := dir + [e.name];
    if o.excluded(p) then SlotRes(slot, multiset{Walked(p)})
    else match e.node
      case SLeaf(leaf) =>
        SlotRes(LeafSlot(o, leaf, slot),
                multiset{Walked(p), Did(p, Verdict(o, leaf, slot.cur))} + AsideLog(o, leaf, slot, dir, e.name))
      case SDir(_, _) =>
        var r := PlainDir(o, e.node, Mkdir(o, slot.cur), p);
        SlotRes(slot.(cur := Some(r.dst)), multiset{Walked(p)} + r.log)
  }

  ghost function PlainEntries(o: Opts, es: seq<Entry>, k: Kids, dir: Path): KidsRes
    decreases es, 0
  {
    if es == [] then KidsRes(k, multiset{})
    else
      var r := PlainSlot(o, es[0], GetSlot(o, k, es[0].name), dir);
      var t := PlainEntries(o, es[1..], PutSlot(o, k, es[0].name, r.slot), dir);
      KidsRes(t.kids, r.log + t.log)
  }

  /** walk_dir: orphans and reclaimed temps, the entries, then the directory's
      own metadata. */
  ghost function PlainDir(o: Opts, s: Src, d: Dst, dir: Path): (r: DirRes)
    requires s.SDir? && d.DDir?
    ensures r.dst.DDir?
    decreases s, 1
  {
    var t := PlainEntries(o, s.entries, Swept(o, s.entries, d.kids), dir);
    DirRes(DDir(t.kids, DirMetaOf(o, s.meta, d.meta)),
           OrphanLog(o, s.entries, d.kids, dir) + multiset{DirMeta(dir)} + t.log)
  }

  ghost predicate DistinctNames(es: seq<Entry>) {
    forall i, j :: 0 <= i < j < |es| ==> es[i].name != es[j].name
  }

  ghost predicate WellFormed(s: Src)
    decreases s, 1
  {
    s.SDir? ==> DistinctNames(s.entries) && WellFormedIn(s.entries)
  }

  ghost predicate WellFormedIn(es: seq<Entry>)
    decreases es, 0
  {
    forall i :: 0 <= i < |es| ==> WellFormed(es[i].node)
  }
}
