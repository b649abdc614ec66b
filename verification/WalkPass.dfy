/** What one pass of the walk achieves, and why the next one has nothing to do
    (agent/src/walker.c handle_entry and handle_orphan, read as a whole). By
    WalkRun.ShardedEqualsPlain everything here holds of every sharded run. */
module WalkPass {
  import opened WalkModel
  import opened WalkShards
  import opened WalkPromise
  import X = Xattr
  import T = TempName

  // ---------------------------------------------------------------------
  // Every entry is handled once
  // ---------------------------------------------------------------------

  /** The source entry at dir + rest, if no directory above it is excluded. */
  function EntryAt(o: Opts, es: seq<Entry>, dir: Path, rest: Path): Option<Entry>
    requires rest != []
    decreases |rest|
  {
    var i := Find(es, rest[0]);
    if i < 0 then None
    else if |rest| == 1 then Some(es[i])
    else if o.excluded(dir + [rest[0]]) || es[i].node.SLeaf? then None
    else EntryAt(o, es[i].node.entries, dir + [rest[0]], rest[1..])
  }

  function Once(b: bool): nat { if b then 1 else 0 }

  ghost predicate CountsAre(log: multiset<Event>, q: Path, walked: bool, dirMeta: bool) {
    log[Walked(q)] == Once(walked) && log[DirMeta(q)] == Once(dirMeta)
  }

  predicate IsWalkedDir(o: Opts, e: Option<Entry>, q: Path) {
    e.Some? && e.value.node.SDir? && !o.excluded(q)
  }

  lemma OrphanLogCounts(o: Opts, es: seq<Entry>, k: Kids, dir: Path, q: Path)
    ensures CountsAre(OrphanLog(o, es, k, dir), q, false, false)
  {
  }

  lemma {:induction false} SlotCounts(o: Opts, e: Entry, slot: Slot, dir: Path, q: Path)
    requires WellFormed(e.node)
    ensures var log, p := PlainSlot(o, e, slot, dir).log, dir + [e.name];
            && (!(p <= q) ==> CountsAre(log, q, false, false))
            && (p == q ==> CountsAre(log, q, true, IsWalkedDir(o, Some(e), q)))
            && (p < q ==>
                  if o.excluded(p) || e.node.SLeaf? then CountsAre(log, q, false, false)
                  else var f := EntryAt(o, e.node.entries, p, q[|p|..]); CountsAre(log, q, f.Some?, IsWalkedDir(o, f, q)))
    decreases e, 0
  {
    var p := dir + [e.name];
    if !o.excluded(p) && e.node.SDir? {
      DirCounts(o, e.node, Mkdir(o, slot.cur), p, q);
    }
  }

  lemma {:induction false} DirCounts(o: Opts, s: Src, d: Dst, dir: Path, q: Path)
    requires s.SDir? && d.DDir? && WellFormed(s)
    ensures var log := PlainDir(o, s, d, dir).log;
            && (!(dir <= q) ==> CountsAre(log, q, false, false))
            && (dir == q ==> CountsAre(log, q, false, true))
            && (dir < q ==> var f := EntryAt(o, s.entries, dir, q[|dir|..]);
                            CountsAre(log, q, f.Some?, IsWalkedDir(o, f, q)))
    decreases s, 1
  {
    OrphanLogCounts(o, s.entries, d.kids, dir, q);
    EntriesCounts(o, s.entries, Swept(o, s.entries, d.kids), dir, q);
  }

  lemma {:induction false} EntriesCounts(o: Opts, es: seq<Entry>, k: Kids, dir: Path, q: Path)
    requires DistinctNames(es) && WellFormedIn(es)
    ensures var log := PlainEntries(o, es, k, dir).log;
            && (!(dir < q) ==> CountsAre(log, q, false, false))
            && (dir < q ==> var f := EntryAt(o, es, dir, q[|dir|..]);
                            CountsAre(log, q, f.Some?, IsWalkedDir(o, f, q)))
    decreases es, 0
  {
    if es != [] {
      var e, p := es[0], dir + [es[0].name];
      var r := PlainSlot(o, e, GetSlot(o, k, e.name), dir);
      var t := PlainEntries(o, es[1..], PutSlot(o, k, e.name, r.slot), dir);
      SlotCounts(o, e, GetSlot(o, k, e.name), dir, q);
      TailDistinct(es);
      EntriesCounts(o, es[1..], PutSlot(o, k, e.name, r.slot), dir, q);
      assert PlainEntries(o, es, k, dir).log == r.log + t.log;
      if dir < q {
        HeadOrTail(o, es, dir, q);
      } else {
        assert !(p <= q);
      }
    }
  }

  /** The path leads through the first entry or through one of the others. */
  lemma HeadOrTail(o: Opts, es: seq<Entry>, dir: Path, q: Path)
    requires es != [] && DistinctNames(es) && dir < q
    ensures var e, p, rest := es[0], dir + [es[0].name], q[|dir|..];
            if p <= q then
              && EntryAt(o, es[1..], dir, rest) == None
              && EntryAt(o, es, dir, rest) ==
                 (if p == q then Some(e) else if o.excluded(p) || e.node.SLeaf? then None
                  else EntryAt(o, e.node.entries, p, q[|p|..]))
            else EntryAt(o, es, dir, rest) == EntryAt(o, es[1..], dir, rest)
  {
    var e, p, rest := es[0], dir + [es[0].name], q[|dir|..];
    TailDistinct(es);
    assert rest[0] == q[|dir|];
    if p <= q {
      assert p[|dir|] == e.name;
      assert rest[1..] == q[|p|..];
      assert |rest| == 1 ==> q == p;
    } else {
      assert rest[0] != e.name by {
        assert q[..|dir| + 1] == dir + [rest[0]];
      }
      EntryAtShifts(o, es, dir, rest);
    }
  }

  lemma FindShifts(es: seq<Entry>, n: Name)
    requires es != [] && es[0].name != n
    ensures Find(es, n) == (if Find(es[1..], n) < 0 then -1 else Find(es[1..], n) + 1)
  {
  }

  lemma EntryAtShifts(o: Opts, es: seq<Entry>, dir: Path, rest: Path)
    requires es != [] && rest != [] && es[0].name != rest[0]
    ensures EntryAt(o, es, dir, rest) == EntryAt(o, es[1..], dir, rest)
  {
    FindShifts(es, rest[0]);
  }

  /** Each entry the filters leave in sight is handled exactly once, and each
      included directory is walked exactly once; nothing else is. */
  lemma EachEntryOnce(o: Opts, s: Src, d: Dst, q: Path)
    requires s.SDir? && d.DDir? && WellFormed(s) && q != []
    ensures var log, f := PlainDir(o, s, d, []).log, EntryAt(o, s.entries, [], q);
            && log[Walked(q)] == (if f.Some? then 1 else 0)
            && log[DirMeta(q)] == (if f.Some? && f.value.node.SDir? && !o.excluded(q) then 1 else 0)
  {
    DirCounts(o, s, d, [], q);
    assert q[0..] == q;
  }

  // ---------------------------------------------------------------------
  // One pass makes the trees agree
  // ---------------------------------------------------------------------

  lemma MetaIsAsked(o: Opts, src: Meta, was: Meta)
    ensures MetaAsked(o, src, was, DirMetaOf(o, src, was)) && MetaAsked(o, src, was, FixedMeta(o, src, was))
  {
    X.CopiedIff(o.rules, src.xattrs, was.xattrs, X.Copied(o.rules, src.xattrs, was.xattrs));
    X.EqualIff(o.rules, src.xattrs, was.xattrs);
    if X.InStep(o.rules, src.xattrs, was.xattrs) { X.InStepCarried(o.rules, src.xattrs, was.xattrs); }
  }

  lemma MadeIsCopy(o: Opts, s: Leaf)
    ensures IsCopy(o, s, Made(o, s))
  {
    X.CopiedIff(o.rules, s.meta.xattrs, map[], X.Copied(o.rules, s.meta.xattrs, map[]));
  }

  lemma PopulatedIff(d: Option<Dst>)
    ensures Populated(d) <==> InTheWay(d)
  {
    if InTheWay(d) {
      assert d.value.kids.Keys != {};
      var x :| x in d.value.kids;
    }
  }

  /** The decision and its effect are the promised ones. */
  lemma LeafIsHandled(o: Opts, s: Leaf, slot: Slot)
    ensures LeafHandled(o, s, slot, LeafSlot(o, s, slot), Verdict(o, s, slot.cur))
  {
    MadeIsCopy(o, s);
    PopulatedIff(slot.cur);
    if s.File? && slot.cur.Some? && slot.cur.value.DLeaf? && slot.cur.value.leaf.File? {
      var d := slot.cur.value.leaf;
      X.EqualIff(o.rules, s.meta.xattrs, d.meta.xattrs);
      MetaIsAsked(o, s.meta, d.meta);
    }
  }

  /** So an included entry agrees under the diff predicate (times where the job
      keeps them), or is a newer file the job was told to leave alone. */
  predicate LeafAgrees(o: Opts, s: Leaf, cur: Option<Dst>) {
    (s.Special? && !o.specials) ||
    (cur.Some? && cur.value.DLeaf? &&
     var d := cur.value.leaf;
     match s
     case File(size, mtime, _, m) =>
       d.File? &&
       (|| (o.skipNewer && DestIsNewer(o, mtime, d.mtime))
        || (d.size == size && (o.times && o.slop >= 0 ==> TimesEqual(o, mtime, d.mtime)) && !MetaDiffers(o, m, d.meta)))
     case Link(target, _) => d.Link? && d.target == target
     case Special(format, rdev, _) => d.Special? && d.format == format && d.rdev == rdev)
  }

  lemma HandledAgrees(o: Opts, s: Leaf, was: Slot, now: Slot, did: Kind)
    requires LeafHandled(o, s, was, now, did)
    ensures LeafAgrees(o, s, now.cur)
  {
  }

  /** A big file waits in the queue: a file it replaces stays readable until the
      copy is published, and anything else has made way. */
  lemma QueuedKeepsFile(o: Opts, s: Leaf, slot: Slot)
    requires Verdict(o, s, slot.cur) == Chunked
    ensures var q := LeafSlotQueued(o, s, slot);
            && (if slot.cur.Some? && slot.cur.value.DLeaf? && slot.cur.value.leaf.File?
                then q == slot else q.cur == None && q.aside == if Populated(slot.cur) then slot.cur else slot.aside)
            && Replaced(o, s, slot, LeafSlot(o, s, slot))
  {
    PopulatedIff(slot.cur);
    LeafIsHandled(o, s, slot);
  }

  // Where the records of a walk are

  lemma {:induction false} SlotRecords(o: Opts, e: Entry, slot: Slot, dir: Path, v: Event)
    requires v in PlainSlot(o, e, slot, dir).log
    ensures dir + [e.name] <= Where(v) || v == Orphan(dir, Stale(e.name, o.pass))
    decreases e, 0
  {
    if !o.excluded(dir + [e.name]) && e.node.SDir? {
      var d := Mkdir(o, slot.cur);
      if v in PlainDir(o, e.node, d, dir + [e.name]).log { DirRecords(o, e.node, d, dir + [e.name], v); }
    }
  }

  lemma {:induction false} DirRecords(o: Opts, s: Src, d: Dst, dir: Path, v: Event)
    requires s.SDir? && d.DDir? && v in PlainDir(o, s, d, dir).log
    ensures Inside(v, dir)
    decreases s, 1
  {
    var k := Swept(o, s.entries, d.kids);
    if v in PlainEntries(o, s.entries, k, dir).log {
      var i := EntriesRecords(o, s.entries, k, dir, v);
      if dir + [s.entries[i].name] <= Where(v) { assert Where(v)[..|dir|] == dir; }
    }
  }

  lemma {:induction false} EntriesRecords(o: Opts, es: seq<Entry>, k: Kids, dir: Path, v: Event) returns (i: nat)
    requires v in PlainEntries(o, es, k, dir).log
    ensures i < |es| && (dir + [es[i].name] <= Where(v) || v == Orphan(dir, Stale(es[i].name, o.pass)))
    decreases es, 0
  {
    var r := PlainSlot(o, es[0], GetSlot(o, k, es[0].name), dir);
    if v in r.log {
      SlotRecords(o, es[0], GetSlot(o, k, es[0].name), dir, v);
      i := 0;
    } else {
      var k1 := PutSlot(o, k, es[0].name, r.slot);
      assert v in PlainEntries(o, es[1..], k1, dir).log;
      var j := EntriesRecords(o, es[1..], k1, dir, v);
      assert es[1..][j] == es[j + 1];
      i := j + 1;
    }
  }

  lemma OneChild(dir: Path, m: Name, n: Name, q: Path)
    requires dir + [n] <= q
    ensures dir + [m] <= q ==> m == n
  {
    assert (dir + [n])[|dir|] == n && (dir + [m])[|dir|] == m;
  }

  /** The other entries' records are not under this one's name. */
  lemma NotUnder(o: Opts, es: seq<Entry>, k: Kids, dir: Path, n: Name, v: Event)
    requires !Named(es, n) && dir + [n] <= Where(v)
    ensures v !in PlainEntries(o, es, k, dir).log
  {
    if v in PlainEntries(o, es, k, dir).log {
      var i := EntriesRecords(o, es, k, dir, v);
      OneChild(dir, es[i].name, n, Where(v));
    }
  }

  // The entries of one directory

  /** EntriesHandled, the sweep being over. */
  ghost predicate EntriesDone(o: Opts, es: seq<Entry>, k: Kids, k': Kids, dir: Path, log: multiset<Event>) {
    forall i :: 0 <= i < |es| ==> SlotHandled(o, es[i], GetSlot(o, k, es[i].name), GetSlot(o, k', es[i].name), dir, log)
  }

  lemma {:induction false} SlotIsHandled(o: Opts, e: Entry, slot: Slot, dir: Path)
    requires WellFormed(e.node)
    ensures var r := PlainSlot(o, e, slot, dir); SlotHandled(o, e, slot, r.slot, dir, r.log)
    decreases e, 0
  {
    var p := dir + [e.name];
    if o.excluded(p) {
      assert NoRecord(PlainSlot(o, e, slot, dir).log, p);
    } else if e.node.SLeaf? {
      LeafSlotHandled(o, e, slot, dir);
    } else {
      PassMakesTreesAgree(o, e.node, Mkdir(o, slot.cur), p);
      DirSlotHandled(o, e, slot, dir);
    }
  }

  lemma LeafSlotHandled(o: Opts, e: Entry, slot: Slot, dir: Path)
    requires e.node.SLeaf? && !o.excluded(dir + [e.name])
    ensures var r := PlainSlot(o, e, slot, dir); SlotHandled(o, e, slot, r.slot, dir, r.log)
  {
    var p, r, did := dir + [e.name], PlainSlot(o, e, slot, dir), Verdict(o, e.node.leaf, slot.cur);
    LeafIsHandled(o, e.node.leaf, slot);
    assert Recorded(r.log, p, did);
    assert LeafHandled(o, e.node.leaf, slot, r.slot, did);
  }

  lemma DirSlotHandled(o: Opts, e: Entry, slot: Slot, dir: Path)
    requires e.node.SDir? && !o.excluded(dir + [e.name])
    requires var p, d := dir + [e.name], Mkdir(o, slot.cur);
             var t := PlainDir(o, e.node, d, p); DirHandled(o, e.node, d, t.dst, p, t.log)
    ensures var r := PlainSlot(o, e, slot, dir); SlotHandled(o, e, slot, r.slot, dir, r.log)
  {
    var p, d, log := dir + [e.name], Mkdir(o, slot.cur), PlainSlot(o, e, slot, dir).log;
    var t := PlainDir(o, e.node, d, p);
    EntryNotInside(o, e.node, d, p);
    assert SameInside(t.log, log, p);
    DirLogFrame(o, e.node, d, t.dst, p, t.log, log);
    assert NoRecord(log, p);
  }

  lemma EntryNotInside(o: Opts, s: Src, d: Dst, dir: Path)
    requires s.SDir? && d.DDir?
    ensures var log := PlainDir(o, s, d, dir).log; log[Walked(dir)] == 0 && NoRecord(log, dir)
  {
    var log := PlainDir(o, s, d, dir).log;
    if Walked(dir) in log { DirRecords(o, s, d, dir, Walked(dir)); }
    forall k ensures log[Did(dir, k)] == 0 {
      if Did(dir, k) in log { DirRecords(o, s, d, dir, Did(dir, k)); }
    }
  }

  /** Only the slots of source names change. */
  lemma {:induction false} OthersKept(o: Opts, es: seq<Entry>, k: Kids, dir: Path, x: DName)
    requires !(x.Real? && Named(es, x.name)) && !(x.Stale? && x.pass == o.pass && Named(es, x.of))
    ensures At(PlainEntries(o, es, k, dir).kids, x) == At(k, x)
    decreases es
  {
    if es != [] {
      assert Named(es, es[0].name);
      var r := PlainSlot(o, es[0], GetSlot(o, k, es[0].name), dir);
      PutAt(o, k, es[0].name, r.slot, x);
      if x.Real? { NamedTail(es, x.name); } else { NamedTail(es, x.of); }
      OthersKept(o, es[1..], PutSlot(o, k, es[0].name, r.slot), dir, x);
    }
  }

  lemma NamedTail(es: seq<Entry>, n: Name)
    requires es != []
    ensures Named(es[1..], n) ==> Named(es, n)
  {
    if Named(es[1..], n) {
      var i :| 0 <= i < |es[1..]| && es[1..][i].name == n;
      assert es[i + 1].name == n;
    }
  }

  lemma TailDistinct(es: seq<Entry>)
    requires es != [] && DistinctNames(es)
    ensures DistinctNames(es[1..]) && !Named(es[1..], es[0].name)
  {
    forall a, b | 0 <= a < b < |es[1..]| ensures es[1..][a].name != es[1..][b].name {
      assert es[1..][a] == es[a + 1] && es[1..][b] == es[b + 1];
    }
  }

  lemma {:induction false} EntriesAreHandled(o: Opts, es: seq<Entry>, k: Kids, dir: Path)
    requires DistinctNames(es) && WellFormedIn(es)
    ensures var r := PlainEntries(o, es, k, dir); EntriesDone(o, es, k, r.kids, dir, r.log)
    decreases es, 0
  {
    if es != [] {
      var e, slot := es[0], GetSlot(o, k, es[0].name);
      var r0 := PlainSlot(o, e, slot, dir);
      var k1 := PutSlot(o, k, e.name, r0.slot);
      var r1 := PlainEntries(o, es[1..], k1, dir);
      SlotIsHandled(o, e, slot, dir);
      TailDistinct(es);
      EntriesAreHandled(o, es[1..], k1, dir);
      FirstSlot(o, es, k, dir);
      HeadFrame(o, es[1..], k1, dir, e, r0.log);
      SlotLogFrame(o, e, slot, r0.slot, dir, r0.log, r0.log + r1.log);
      forall i | 0 < i < |es|
        ensures SlotHandled(o, es[i], GetSlot(o, k, es[i].name), GetSlot(o, r1.kids, es[i].name), dir, r0.log + r1.log)
      {
        assert es[1..][i - 1] == es[i];
        GetPut(o, k, e.name, r0.slot, es[i].name);
        TailFrame(o, e, slot, dir, es[i].name, r1.log);
        SlotLogFrame(o, es[i], GetSlot(o, k1, es[i].name), GetSlot(o, r1.kids, es[i].name), dir, r1.log, r0.log + r1.log);
      }
    }
  }

  /** The other entries do not touch the first one's slot ... */
  lemma FirstSlot(o: Opts, es: seq<Entry>, k: Kids, dir: Path)
    requires es != [] && DistinctNames(es)
    ensures var r := PlainSlot(o, es[0], GetSlot(o, k, es[0].name), dir);
            GetSlot(o, PlainEntries(o, es, k, dir).kids, es[0].name) == r.slot
  {
    var e := es[0];
    var r := PlainSlot(o, e, GetSlot(o, k, e.name), dir);
    var k1 := PutSlot(o, k, e.name, r.slot);
    TailDistinct(es);
    GetPut(o, k, e.name, r.slot, e.name);
    OthersKept(o, es[1..], k1, dir, Real(e.name));
    OthersKept(o, es[1..], k1, dir, Stale(e.name, o.pass));
  }

  /** ... nor add records under its name, nor it under theirs. */
  lemma HeadFrame(o: Opts, rest: seq<Entry>, k: Kids, dir: Path, e: Entry, log: multiset<Event>)
    requires !Named(rest, e.name)
    ensures SameUnder(log, log + PlainEntries(o, rest, k, dir).log, dir + [e.name])
  {
    forall v: Event | dir + [e.name] <= Where(v) ensures log[v] == (log + PlainEntries(o, rest, k, dir).log)[v] {
      NotUnder(o, rest, k, dir, e.name, v);
    }
  }

  lemma TailFrame(o: Opts, e: Entry, slot: Slot, dir: Path, n: Name, log: multiset<Event>)
    requires n != e.name
    ensures SameUnder(log, PlainSlot(o, e, slot, dir).log + log, dir + [n])
  {
    var l := PlainSlot(o, e, slot, dir).log;
    forall v: Event | dir + [n] <= Where(v) ensures log[v] == (l + log)[v] {
      OneChild(dir, e.name, n, Where(v));
      if v in l { SlotRecords(o, e, slot, dir, v); }
    }
  }

  // What is reported in one directory

  lemma SlotReports(o: Opts, e: Entry, k: Kids, dir: Path, x: DName)
    ensures PlainSlot(o, e, GetSlot(o, k, e.name), dir).log[Orphan(dir, x)] ==
            if x == Stale(e.name, o.pass) && MovesAside(o, e, k, dir) then 1 else 0
  {
    var p, slot := dir + [e.name], GetSlot(o, k, e.name);
    PopulatedIff(slot.cur);
    if !o.excluded(p) && e.node.SDir? {
      var d := Mkdir(o, slot.cur);
      if Orphan(dir, x) in PlainDir(o, e.node, d, p).log { DirRecords(o, e.node, d, p, Orphan(dir, x)); }
    }
  }

  lemma {:induction false} EntriesReports(o: Opts, es: seq<Entry>, k: Kids, dir: Path, x: DName)
    requires DistinctNames(es)
    ensures PlainEntries(o, es, k, dir).log[Orphan(dir, x)] == if AsideName(o, es, k, dir, x) then 1 else 0
    decreases es, 0
  {
    if es != [] {
      var e := es[0];
      var r := PlainSlot(o, e, GetSlot(o, k, e.name), dir);
      var k1 := PutSlot(o, k, e.name, r.slot);
      SlotReports(o, e, k, dir, x);
      TailDistinct(es);
      EntriesReports(o, es[1..], k1, dir, x);
      AsideTail(o, es, k, k1, dir, x, r.slot);
    }
  }

  lemma AsideTail(o: Opts, es: seq<Entry>, k: Kids, k1: Kids, dir: Path, x: DName, slot: Slot)
    requires es != [] && DistinctNames(es) && k1 == PutSlot(o, k, es[0].name, slot)
    ensures AsideName(o, es, k, dir, x) <==>
            (x == Stale(es[0].name, o.pass) && MovesAside(o, es[0], k, dir)) || AsideName(o, es[1..], k1, dir, x)
    ensures !(x == Stale(es[0].name, o.pass) && AsideName(o, es[1..], k1, dir, x))
  {
    forall i | 0 < i < |es| ensures MovesAside(o, es[i], k, dir) <==> MovesAside(o, es[1..][i - 1], k1, dir) {
      assert es[1..][i - 1] == es[i];
      PutAt(o, k, es[0].name, slot, Real(es[i].name));
    }
    if AsideName(o, es, k, dir, x) {
      var i :| 0 <= i < |es| && x == Stale(es[i].name, o.pass) && MovesAside(o, es[i], k, dir);
      if i > 0 { assert es[1..][i - 1] == es[i]; }
    }
    if AsideName(o, es[1..], k1, dir, x) {
      var j :| 0 <= j < |es[1..]| && x == Stale(es[1..][j].name, o.pass) && MovesAside(o, es[1..][j], k1, dir);
      assert es[j + 1] == es[1..][j];
    }
  }

  /** The names of the source entries survive the sweep. */
  lemma SweptAside(o: Opts, es: seq<Entry>, k: Kids, dir: Path, x: DName)
    ensures AsideName(o, es, Swept(o, es, k), dir, x) <==> AsideName(o, es, k, dir, x)
  {
    forall i | 0 <= i < |es|
      ensures MovesAside(o, es[i], Swept(o, es, k), dir) <==> MovesAside(o, es[i], k, dir)
    {
      assert Named(es, es[i].name);
    }
  }

  lemma DirReports(o: Opts, s: Src, d: Dst, dir: Path, x: DName)
    requires s.SDir? && d.DDir? && WellFormed(s)
    ensures PlainDir(o, s, d, dir).log[Orphan(dir, x)] == Reports(o, s.entries, d.kids, dir, x)
  {
    EntriesReports(o, s.entries, Swept(o, s.entries, d.kids), dir, x);
    SweptAside(o, s.entries, d.kids, dir, x);
    assert OrphanLog(o, s.entries, d.kids, dir)[Orphan(dir, x)] ==
           if x in d.kids && !o.isTemp(x) && !Listed(s.entries, x) then 1 else 0;
  }

  // What is at the other names

  lemma SlotAside(o: Opts, e: Entry, k: Kids, dir: Path)
    ensures var slot := GetSlot(o, k, e.name);
            PlainSlot(o, e, slot, dir).slot.aside == if MovesAside(o, e, k, dir) then slot.cur else slot.aside
  {
    PopulatedIff(GetSlot(o, k, e.name).cur);
  }

  /** The aside name of an entry that moves nothing aside is left alone. */
  lemma {:induction false} AsideKept(o: Opts, es: seq<Entry>, k: Kids, dir: Path, x: DName)
    requires DistinctNames(es) && x.Stale? && !AsideName(o, es, k, dir, x)
    ensures At(PlainEntries(o, es, k, dir).kids, x) == At(k, x)
    decreases es
  {
    if es != [] {
      var e, slot := es[0], GetSlot(o, k, es[0].name);
      var r := PlainSlot(o, e, slot, dir);
      var k1 := PutSlot(o, k, e.name, r.slot);
      AsideTail(o, es, k, k1, dir, x, r.slot);
      TailDistinct(es);
      AsideKept(o, es[1..], k1, dir, x);
      SlotAside(o, e, k, dir);
      PutAt(o, k, e.name, r.slot, x);
      assert At(k1, x) == At(k, x);
    }
  }

  lemma OtherNames(o: Opts, s: Src, d: Dst, dir: Path, x: DName)
    requires s.SDir? && d.DDir? && WellFormed(s)
    requires !Listed(s.entries, x) && !AsideName(o, s.entries, d.kids, dir, x)
    ensures At(PlainDir(o, s, d, dir).dst.kids, x) == Unswept(o, d.kids, x)
  {
    var k := Swept(o, s.entries, d.kids);
    if x.Real? {
      OthersKept(o, s.entries, k, dir, x);
    } else {
      SweptAside(o, s.entries, d.kids, dir, x);
      AsideKept(o, s.entries, k, dir, x);
    }
  }

  /** One pass makes the trees agree, at every level and whatever the options: see
      WalkPromise for what that means at each name. */
  lemma {:induction false} PassMakesTreesAgree(o: Opts, s: Src, d: Dst, dir: Path)
    requires s.SDir? && d.DDir? && WellFormed(s)
    ensures var r := PlainDir(o, s, d, dir); DirHandled(o, s, d, r.dst, dir, r.log)
    decreases s, 1
  {
    var es, k, r := s.entries, Swept(o, s.entries, d.kids), PlainDir(o, s, d, dir);
    var t := PlainEntries(o, es, k, dir);
    EntriesAreHandled(o, es, k, dir);
    MetaIsAsked(o, s.meta, d.meta);
    OneDirMeta(o, s, d, dir);
    forall x ensures r.log[Orphan(dir, x)] == Reports(o, es, d.kids, dir, x) {
      DirReports(o, s, d, dir, x);
    }
    forall x | !Listed(es, x) && !AsideName(o, es, d.kids, dir, x) ensures At(r.dst.kids, x) == Unswept(o, d.kids, x) {
      OtherNames(o, s, d, dir, x);
    }
    SweptEntries(o, es, d.kids, t.kids, dir, t.log);
    forall i | 0 <= i < |es| ensures SameUnder(t.log, r.log, dir + [es[i].name]) {
      UnderEntries(o, s, d, dir, es[i].name);
    }
    EntriesLogFrame(o, es, d.kids, t.kids, dir, t.log, r.log);
  }

  lemma OneDirMeta(o: Opts, s: Src, d: Dst, dir: Path)
    requires s.SDir? && d.DDir?
    ensures PlainDir(o, s, d, dir).log[DirMeta(dir)] == 1
  {
    var k := Swept(o, s.entries, d.kids);
    if DirMeta(dir) in PlainEntries(o, s.entries, k, dir).log {
      var i := EntriesRecords(o, s.entries, k, dir, DirMeta(dir));
    }
  }

  lemma SweptEntries(o: Opts, es: seq<Entry>, k: Kids, k': Kids, dir: Path, log: multiset<Event>)
    requires EntriesDone(o, es, Swept(o, es, k), k', dir, log)
    ensures EntriesHandled(o, es, k, k', dir, log)
  {
    forall i | 0 <= i < |es| ensures SlotHandled(o, es[i], SlotIn(o, k, es[i].name), SlotOut(o, k', es[i].name), dir, log) {
      assert Named(es, es[i].name);
      assert SlotIn(o, k, es[i].name) == GetSlot(o, Swept(o, es, k), es[i].name);
      assert SlotOut(o, k', es[i].name) == GetSlot(o, k', es[i].name);
    }
  }

  lemma UnderEntries(o: Opts, s: Src, d: Dst, dir: Path, n: Name)
    requires s.SDir? && d.DDir?
    ensures SameUnder(PlainEntries(o, s.entries, Swept(o, s.entries, d.kids), dir).log, PlainDir(o, s, d, dir).log, dir + [n])
  {
  }

  // Nothing else is recorded

  /** A record an entry may have. */
  predicate Fits(o: Opts, e: Entry, v: Event) {
    match v
    case Walked(_) => true
    case Did(q, _) => e.node.SLeaf? && !o.excluded(q)
    case DirMeta(q) => e.node.SDir? && !o.excluded(q)
    case Orphan(q, _) => e.node.SDir? && !o.excluded(q)
  }

  predicate Known(o: Opts, es: seq<Entry>, dir: Path, v: Event)
    requires dir < Where(v)
  {
    var f := EntryAt(o, es, dir, Where(v)[|dir|..]);
    f.Some? && Fits(o, f.value, v)
  }

  lemma {:induction false} SlotStray(o: Opts, e: Entry, slot: Slot, dir: Path, v: Event)
    requires v in PlainSlot(o, e, slot, dir).log && dir + [e.name] <= Where(v) && WellFormed(e.node)
    ensures var p := dir + [e.name];
            if p == Where(v) then Fits(o, e, v)
            else !o.excluded(p) && e.node.SDir? && Known(o, e.node.entries, p, v)
    decreases e, 0
  {
    var p, d := dir + [e.name], Mkdir(o, slot.cur);
    if !o.excluded(p) && e.node.SDir? && v in PlainDir(o, e.node, d, p).log { DirStray(o, e.node, d, p, v); }
  }

  lemma {:induction false} DirStray(o: Opts, s: Src, d: Dst, dir: Path, v: Event)
    requires s.SDir? && d.DDir? && v in PlainDir(o, s, d, dir).log && WellFormed(s)
    ensures Inside(v, dir) && (dir < Where(v) ==> Known(o, s.entries, dir, v))
    decreases s, 1
  {
    DirRecords(o, s, d, dir, v);
    if dir < Where(v) { EntriesStray(o, s.entries, Swept(o, s.entries, d.kids), dir, v); }
  }

  lemma {:induction false} EntriesStray(o: Opts, es: seq<Entry>, k: Kids, dir: Path, v: Event)
    requires v in PlainEntries(o, es, k, dir).log && dir < Where(v) && DistinctNames(es) && WellFormedIn(es)
    ensures Known(o, es, dir, v)
    decreases es, 0
  {
    var r := PlainSlot(o, es[0], GetSlot(o, k, es[0].name), dir);
    TailDistinct(es);
    HeadOrTail(o, es, dir, Where(v));
    if v in r.log {
      SlotRecords(o, es[0], GetSlot(o, k, es[0].name), dir, v);
      SlotStray(o, es[0], GetSlot(o, k, es[0].name), dir, v);
    } else {
      EntriesStray(o, es[1..], PutSlot(o, k, es[0].name, r.slot), dir, v);
    }
  }

  /** Every record of a walk is about the root directory, an entry in sight, an
      included directory, or an included entry of another type. */
  lemma NothingElseRecorded(o: Opts, s: Src, d: Dst, v: Event)
    requires s.SDir? && d.DDir? && WellFormed(s) && v in PlainDir(o, s, d, []).log
    ensures if Where(v) == [] then v.Orphan? || v.DirMeta?
            else var f := EntryAt(o, s.entries, [], Where(v)); f.Some? && Fits(o, f.value, v)
  {
    DirStray(o, s, d, [], v);
    assert Where(v)[0..] == Where(v);
  }

  // Temps by name

  /** The prefix and the tag the walk knows its temps by. */
  ghost predicate TempsAre(o: Opts, prefix: string, job: nat, pass: nat) {
    && (forall n :: o.isTemp(Real(n)) <==> prefix <= n)
    && (forall n :: o.isLive(Real(n)) <==> prefix <= n && T.TagIs(n[|prefix|..], job, pass))
  }

  /** A temp of this job and pass stays, one of another job or pass is swept, and
      neither is reported. */
  lemma TempFate(o: Opts, s: Src, d: Dst, dir: Path, prefix: string, job: nat, pass: nat, j: nat, p: nat, shard: nat, seq_: nat)
    requires s.SDir? && d.DDir? && WellFormed(s) && TempsAre(o, prefix, job, pass)
    requires j < T.U64 && p < T.U32
    ensures var x := Real(prefix + T.Tail(j, p, shard, seq_));
            var r := PlainDir(o, s, d, dir);
            x in d.kids && d.kids[x].DLeaf? && !Listed(s.entries, x) ==>
              && At(r.dst.kids, x) == (if j == job && p == pass then Some(d.kids[x]) else None)
              && Orphan(dir, x) !in r.log
  {
    var tail := T.Tail(j, p, shard, seq_);
    var x := Real(prefix + tail);
    assert x.name[..|prefix|] == prefix && x.name[|prefix|..] == tail;
    T.FormattedTagMatchesIff(j, p, shard, seq_, job, pass);
    if x in d.kids && !Listed(s.entries, x) {
      OtherNames(o, s, d, dir, x);
      DirReports(o, s, d, dir, x);
    }
  }

  // ---------------------------------------------------------------------
  // The next pass has nothing to do
  // ---------------------------------------------------------------------

  /** Verdicts that count neither as a copy nor as a metadata fix. */
  predicate Quiet(k: Kind) { k in {Clean, SkippedNewer, Ignored} }

  /** Exactly when a file just copied is not copied or fixed again. */
  lemma CopyStableIff(o: Opts, f: Leaf)
    requires f.File? && o.slop >= 0
    ensures Quiet(Verdict(o, f, Some(DLeaf(Made(o, f))))) <==>
            var t := if o.times then f.mtime else o.bornTime;
            || (o.skipNewer && DestIsNewer(o, f.mtime, t))
            || (TimesEqual(o, f.mtime, t) && (o.xattrs ==> X.Preservable(o.rules, f.meta.xattrs)))
  {
    X.FreshCopySettlesIff(o.rules, f.meta.xattrs);
  }

  /** Exactly when a metadata fix is not needed again: every ACL the policy
      leaves out was already right on the destination. */
  lemma FixStableIff(o: Opts, f: Leaf, d: Leaf)
    requires f.File? && d.File? && Verdict(o, f, Some(DLeaf(d))) == MetaFixed
    ensures Quiet(Verdict(o, f, Some(DLeaf(File(d.size, d.mtime, d.data, FixedMeta(o, f.meta, d.meta)))))) <==>
            (XattrsDiffer(o, f.meta, d.meta) ==>
               forall a :: a in f.meta.xattrs && o.rules.category(a) == X.Acl && !X.Written(o.rules, a)
                           ==> a in d.meta.xattrs && d.meta.xattrs[a] == f.meta.xattrs[a])
  {
    X.CopySettlesIff(o.rules, f.meta.xattrs, d.meta.xattrs);
  }

  /** The options of a later pass of the same job. */
  ghost predicate NextPass(o: Opts, o2: Opts) {
    o2 == o.(pass := o2.pass, isLive := o2.isLive, born := o2.born, bornTime := o2.bornTime)
  }

  /** No source file carries an ACL outside the job's options. */
  ghost predicate AclsPreservable(o: Opts, s: Src)
    decreases s
  {
    match s
    case SLeaf(leaf) => leaf.File? && o.xattrs ==> X.Preservable(o.rules, leaf.meta.xattrs)
    case SDir(es, _) => forall i :: 0 <= i < |es| ==> AclsPreservable(o, es[i].node)
  }

  lemma LeafSettles(o: Opts, o2: Opts, s: Leaf, slot: Slot)
    requires NextPass(o, o2) && o.times && o.slop >= 0 && AclsPreservable(o, SLeaf(s))
    ensures Quiet(Verdict(o2, s, LeafSlot(o, s, slot).cur))
  {
    if s.File? {
      CopyStableIff(o, s);
      if Verdict(o, s, slot.cur) == MetaFixed {
        FixStableIff(o, s, slot.cur.value.leaf);
      }
    }
  }

  /** Nothing in this directory, or below it, is waiting to be changed. */
  ghost predicate Settled(o: Opts, es: seq<Entry>, k: Kids, dir: Path)
    decreases es, 0
  {
    forall i :: 0 <= i < |es| ==> SlotSettled(o, es[i], GetSlot(o, k, es[i].name).cur, dir)
  }

  ghost predicate SlotSettled(o: Opts, e: Entry, cur: Option<Dst>, dir: Path)
    decreases e, 0
  {
    o.excluded(dir + [e.name]) ||
    match e.node
    case SLeaf(leaf) => Quiet(Verdict(o, leaf, cur))
    case SDir(es, _) => cur.Some? && cur.value.DDir? && Settled(o, es, cur.value.kids, dir + [e.name])
  }

  lemma {:induction false} SlotSettles(o: Opts, o2: Opts, e: Entry, slot: Slot, dir: Path)
    requires NextPass(o, o2) && o.times && o.slop >= 0 && AclsPreservable(o, e.node) && WellFormed(e.node)
    ensures SlotSettled(o2, e, PlainSlot(o, e, slot, dir).slot.cur, dir)
    decreases e, 0
  {
    if !o.excluded(dir + [e.name]) {
      if e.node.SLeaf? {
        LeafSettles(o, o2, e.node.leaf, slot);
      } else {
        var d := Mkdir(o, slot.cur);
        EntriesSettle(o, o2, e.node.entries, Swept(o, e.node.entries, d.kids), dir + [e.name]);
      }
    }
  }

  lemma {:induction false} EntriesSettle(o: Opts, o2: Opts, es: seq<Entry>, k: Kids, dir: Path)
    requires NextPass(o, o2) && o.times && o.slop >= 0 && DistinctNames(es) && WellFormedIn(es)
    requires forall i :: 0 <= i < |es| ==> AclsPreservable(o, es[i].node)
    ensures Settled(o2, es, PlainEntries(o, es, k, dir).kids, dir)
    decreases es, 0
  {
    if es != [] {
      var e, slot := es[0], GetSlot(o, k, es[0].name);
      var r0 := PlainSlot(o, e, slot, dir);
      var k1 := PutSlot(o, k, e.name, r0.slot);
      SlotSettles(o, o2, e, slot, dir);
      TailDistinct(es);
      EntriesSettle(o, o2, es[1..], k1, dir);
      GetPut(o, k, e.name, r0.slot, e.name);
      OthersKept(o, es[1..], k1, dir, Real(e.name));
      forall i | 0 <= i < |es|
        ensures SlotSettled(o2, es[i], GetSlot(o2, PlainEntries(o, es, k, dir).kids, es[i].name).cur, dir)
      {
        if i > 0 { assert es[1..][i - 1] == es[i]; }
      }
    }
  }

  ghost predicate NoChanges(log: multiset<Event>) {
    forall q, k :: Did(q, k) in log ==> Quiet(k)
  }

  lemma {:induction false} SettledSlotQuiet(o: Opts, e: Entry, slot: Slot, dir: Path)
    requires SlotSettled(o, e, slot.cur, dir) && WellFormed(e.node)
    ensures NoChanges(PlainSlot(o, e, slot, dir).log)
    decreases e, 0
  {
    if !o.excluded(dir + [e.name]) && e.node.SDir? {
      SettledDirQuiet(o, e.node, slot.cur.value, dir + [e.name]);
    }
  }

  lemma {:induction false} SettledDirQuiet(o: Opts, s: Src, d: Dst, dir: Path)
    requires s.SDir? && d.DDir? && Settled(o, s.entries, d.kids, dir) && WellFormed(s)
    ensures NoChanges(PlainDir(o, s, d, dir).log)
    decreases s, 1
  {
    var es, k := s.entries, Swept(o, s.entries, d.kids);
    forall i | 0 <= i < |es| ensures GetSlot(o, k, es[i].name).cur == GetSlot(o, d.kids, es[i].name).cur {
      assert Named(es, es[i].name);
    }
    SettledEntriesQuiet(o, es, k, dir);
  }

  lemma {:induction false} SettledEntriesQuiet(o: Opts, es: seq<Entry>, k: Kids, dir: Path)
    requires Settled(o, es, k, dir) && DistinctNames(es) && WellFormedIn(es)
    ensures NoChanges(PlainEntries(o, es, k, dir).log)
    decreases es, 0
  {
    if es != [] {
      var e, slot := es[0], GetSlot(o, k, es[0].name);
      var k1 := PutSlot(o, k, e.name, PlainSlot(o, e, slot, dir).slot);
      SettledSlotQuiet(o, e, slot, dir);
      TailDistinct(es);
      forall i | 0 <= i < |es[1..]|
        ensures SlotSettled(o, es[1..][i], GetSlot(o, k1, es[1..][i].name).cur, dir)
      {
        assert es[1..][i] == es[i + 1];
        GetPut(o, k, e.name, PlainSlot(o, e, slot, dir).slot, es[i + 1].name);
      }
      SettledEntriesQuiet(o, es[1..], k1, dir);
    }
  }

  /** Fixpoint: with an unchanged source, times preserved and every ACL within
      the options, the walk after a walk copies nothing and fixes nothing. */
  lemma SecondPassQuiet(o: Opts, o2: Opts, s: Src, d: Dst, dir: Path)
    requires s.SDir? && d.DDir? && WellFormed(s)
    requires NextPass(o, o2) && o.times && o.slop >= 0 && AclsPreservable(o, s)
    ensures NoChanges(PlainDir(o2, s, PlainDir(o, s, d, dir).dst, dir).log)
  {
    EntriesSettle(o, o2, s.entries, Swept(o, s.entries, d.kids), dir);
    SettledDirQuiet(o2, s, PlainDir(o, s, d, dir).dst, dir);
  }
}
