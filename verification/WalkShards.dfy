/** The sharded walk of agent/src/walker.c: a shard descends while its budget
    and the depth cap last and hands the rest back as new shards; a directory
    over the split threshold is handed back name by name; a big file is queued
    for chunked copying.

    `todo` is the work handed back and not yet done: a path is to be handled as
    an entry (entry-list shards), walked as a directory (subdirectory shards), or
    copied (a chunk group). Any grouping of pending paths of one directory may be
    granted as one shard, in any order and with any budget and threshold. */
module WalkShards {
  import opened WalkModel

  datatype Mode = Handle | Walk | Copy
  type Todo = map<Path, Mode>

  const MAX_WALK_DEPTH: nat := 256

  datatype St = St(budget: int, todo: Todo, log: multiset<Event>)

  function Find(es: seq<Entry>, n: Name): (i: int)
    ensures -1 <= i < |es|
    ensures i >= 0 ==> es[i].name == n
    ensures i < 0 ==> !Named(es, n)
  {
    if es == [] then -1
    else if es[0].name == n then 0
    else
      var j := Find(es[1..], n);
      assert Named(es, n) ==> Named(es[1..], n) by {
        if Named(es, n) {
          var k :| 0 <= k < |es| && es[k].name == n;
          assert es[1..][k - 1].name == n;
        }
      }
      if j < 0 then -1 else j + 1
  }

  function AllHandle(es: seq<Entry>, dir: Path): Todo {
    map i | 0 <= i < |es| :: dir + [es[i].name] := Handle
  }

  // ---------------------------------------------------------------------
  // Reading a directory
  // ---------------------------------------------------------------------

  const U64: nat := 0x1_0000_0000_0000_0000

  /** A split threshold, a 64-bit number; 0 means never. A negative one is not a
      setting: it leaves the entries of every directory pending. */
  type Threshold = t: int | -1 <= t < U64

  /** How many names to read before deciding: one more than the threshold, in
      64-bit arithmetic; without a threshold, more than any directory holds. */
  function Probe(t: Threshold): Option<nat> {
    if t == 0 then None else Some((t + 1) % U64)
  }

  function ReadUpto(es: seq<Entry>, limit: Option<nat>): seq<Entry> {
    if limit.None? || |es| <= limit.value then es else es[..limit.value]
  }

  /** The directory is split by name. */
  predicate Big(t: Threshold, es: seq<Entry>) {
    t < 0 || (t > 0 && |ReadUpto(es, Probe(t))| > t)
  }

  /** The source entries the walk goes by: all of them if the directory is split,
      since streaming starts over, and what was read if not. */
  function Listing(t: Threshold, es: seq<Entry>): seq<Entry> {
    if Big(t, es) then es else ReadUpto(es, Probe(t))
  }

  /** The listing is complete if and only if the probe did not wrap to zero or
      there is nothing to read. */
  lemma ListingIff(t: Threshold, es: seq<Entry>)
    ensures Listing(t, es) == es <==> t != U64 - 1 || es == []
    ensures t == U64 - 1 ==> Listing(t, es) == [] && !Big(t, es)
    ensures t != U64 - 1 ==> (Big(t, es) <==> t != 0 && |es| > t)
  {
    if t > 0 && t < U64 - 1 { assert (t + 1) % U64 == t + 1; }
    if t == U64 - 1 { assert (t + 1) % U64 == 0; }
  }

  /** A shard with this threshold sees the whole of directory s. */
  predicate Reads(t: Threshold, s: Src) {
    t != U64 - 1 || (s.SDir? ==> s.entries == [])
  }

  predicate ReadsIn(t: Threshold, es: seq<Entry>) {
    forall i :: 0 <= i < |es| ==> Reads(t, es[i].node)
  }

  // ---------------------------------------------------------------------
  // One shard
  // ---------------------------------------------------------------------

  /** handle_entry. */
  ghost function ShardSlot(o: Opts, splitAt: Threshold, e: Entry, slot: Slot, dir: Path, depth: nat, st: St): (Slot, St)
    decreases e, 0, 0
  {
    var p := dir + [e.name];
    var st1 := St(if st.budget > 0 then st.budget - 1 else st.budget, st.todo, st.log + multiset{Walked(p)});
    if o.excluded(p) then (slot, st1)
    else match e.node
      case SLeaf(leaf) =>
        var v := Verdict(o, leaf, slot.cur);
        var aside := AsideLog(o, leaf, slot, dir, e.name);
        if v == Chunked then
          (LeafSlotQueued(o, leaf, slot), st1.(todo := st1.todo[p := Copy], log := st1.log + aside))
        else
          (LeafSlot(o, leaf, slot), st1.(log := st1.log + (multiset{Did(p, v)} + aside)))
      case SDir(_, _) =>
        var d := Mkdir(o, slot.cur);
        if st1.budget > 0 && depth < MAX_WALK_DEPTH then
          var (d1, st2) := ShardDir(o, splitAt, e.node, d, p, depth + 1, st1);
          (slot.(cur := Some(d1)), st2)
        else
          (slot.(cur := Some(d)), st1.(todo := st1.todo[p := Walk]))
  }

  /** walk_dir: a directory over the threshold leaves all its entries pending;
      any other is worked off here, as far as it was read, entry by entry. */
  ghost function ShardDir(o: Opts, splitAt: Threshold, s: Src, d: Dst, dir: Path, depth: nat, st: St): (r: (Dst, St))
    requires s.SDir? && d.DDir?
    ensures r.0.DDir?
    decreases s, 1, 0
  {
    var es := Listing(splitAt, s.entries);
    var k := Swept(o, es, d.kids);
    var m := DirMetaOf(o, s.meta, d.meta);
    var st1 := st.(todo := st.todo + AllHandle(es, dir),
                   log := st.log + (OrphanLog(o, es, d.kids, dir) + multiset{DirMeta(dir)}));
    if Big(splitAt, s.entries) then (DDir(k, m), st1)
    else
      var (k1, st2) := ShardList(o, splitAt, s.entries, Names(es), k, dir, depth, st1);
      (DDir(k1, m), st2)
  }

  function Names(es: seq<Entry>): (r: seq<Name>)
    ensures |r| == |es| && forall i :: 0 <= i < |es| ==> r[i] == es[i].name
  {
    seq(|es|, i requires 0 <= i < |es| => es[i].name)
  }

  /** The pending work recorded for one entry. */
  ghost function ActSlot(o: Opts, splitAt: Threshold, e: Entry, slot: Slot, dir: Path, depth: nat, mode: Mode, st: St): (Slot, St)
    decreases e, 1, 0
  {
    match mode
    case Handle => ShardSlot(o, splitAt, e, slot, dir, depth, st)
    case Walk =>
      if e.node.SDir? && slot.cur.Some? && slot.cur.value.DDir? then
        var (d1, st1) := ShardDir(o, splitAt, e.node, slot.cur.value, dir + [e.name], 0, st);
        (slot.(cur := Some(d1)), st1)
      else (slot, st)
    case Copy =>
      if e.node.SLeaf? then
        (slot.(cur := Some(DLeaf(Made(o, e.node.leaf)))),
         st.(log := st.log + multiset{Did(dir + [e.name], Chunked)}))
      else (slot, st)
  }

  /** The pending names of one directory, in the given order. */
  ghost function ShardList(o: Opts, splitAt: Threshold, es: seq<Entry>, ns: seq<Name>, k: Kids, dir: Path, depth: nat, st: St): (Kids, St)
    decreases es, 0, |ns|
  {
    if ns == [] then (k, st)
    else
      var p := dir + [ns[0]];
      var i := Find(es, ns[0]);
      if p !in st.todo then ShardList(o, splitAt, es, ns[1..], k, dir, depth, st)
      else
        var st0 := st.(todo := st.todo - {p});
        if i < 0 then ShardList(o, splitAt, es, ns[1..], k, dir, depth, st0)
        else
          var (slot, st1) := ActSlot(o, splitAt, es[i], GetSlot(o, k, ns[0]), dir, depth, st.todo[p], st0);
          ShardList(o, splitAt, es, ns[1..], PutSlot(o, k, ns[0], slot), dir, depth, st1)
  }

  /** With distinct names, a name finds its own entry. */
  lemma FindOwn(es: seq<Entry>, i: nat)
    requires DistinctNames(es) && i < |es|
    ensures Find(es, es[i].name) == i
  {
    assert Named(es, es[i].name);
  }

  /** One turn of ShardList on a pending entry. */
  lemma ListStep(o: Opts, splitAt: Threshold, es: seq<Entry>, i: nat, k: Kids, dir: Path, depth: nat, st: St)
    requires DistinctNames(es) && i < |es|
    requires var p := dir + [es[i].name]; p in st.todo && st.todo[p] == Handle
    ensures var p := dir + [es[i].name];
            var (slot, st1) := ShardSlot(o, splitAt, es[i], GetSlot(o, k, es[i].name), dir, depth, st.(todo := st.todo - {p}));
            ShardList(o, splitAt, es, Names(es)[i..], k, dir, depth, st)
            == ShardList(o, splitAt, es, Names(es)[i + 1..], PutSlot(o, k, es[i].name, slot), dir, depth, st1)
  {
    FindOwn(es, i);
    var ns := Names(es)[i..];
    assert ns[0] == es[i].name && ns[1..] == Names(es)[i + 1..];
  }

  // ---------------------------------------------------------------------
  // Completing a half-done walk plainly
  // ---------------------------------------------------------------------

  /** What is left to do at one entry, done the plain way. */
  ghost function CompleteSlot(o: Opts, e: Entry, slot: Slot, dir: Path, T: Todo): SlotRes
    decreases e, 0
  {
    var p := dir + [e.name];
    if p in T then
      match T[p]
      case Handle => PlainSlot(o, e, slot, dir)
      case Walk =>
        if e.node.SDir? && slot.cur.Some? && slot.cur.value.DDir? then
          var r := PlainDir(o, e.node, slot.cur.value, p);
          SlotRes(slot.(cur := Some(r.dst)), r.log)
        else SlotRes(slot, multiset{})
      case Copy =>
        if e.node.SLeaf? then
          SlotRes(slot.(cur := Some(DLeaf(Made(o, e.node.leaf)))), multiset{Did(p, Chunked)})
        else SlotRes(slot, multiset{})
    else if e.node.SDir? && slot.cur.Some? && slot.cur.value.DDir? then
      var r := CompleteDir(o, e.node, slot.cur.value, p, T);
      SlotRes(slot.(cur := Some(r.dst)), r.log)
    else SlotRes(slot, multiset{})
  }

  ghost function CompleteEntries(o: Opts, es: seq<Entry>, k: Kids, dir: Path, T: Todo): KidsRes
    decreases es, 0
  {
    if es == [] then KidsRes(k, multiset{})
    else
      var r := CompleteSlot(o, es[0], GetSlot(o, k, es[0].name), dir, T);
      var t := CompleteEntries(o, es[1..], PutSlot(o, k, es[0].name, r.slot), dir, T);
      KidsRes(t.kids, r.log + t.log)
  }

  ghost function CompleteDir(o: Opts, s: Src, d: Dst, dir: Path, T: Todo): (r: DirRes)
    requires s.SDir? && d.DDir?
    ensures r.dst.DDir?
    decreases s, 1
  {
    var t := CompleteEntries(o, s.entries, d.kids, dir, T);
    DirRes(DDir(t.kids, d.meta), t.log)
  }

  // ---------------------------------------------------------------------
  // Which part of the pending work matters where
  // ---------------------------------------------------------------------

  function ModeAt(T: Todo, q: Path): Option<Mode> {
    if q in T then Some(T[q]) else None
  }

  ghost predicate AgreeUnder(T: Todo, T': Todo, p: Path) {
    forall q :: p <= q ==> ModeAt(T, q) == ModeAt(T', q)
  }

  ghost predicate SameOutside(T: Todo, T': Todo, p: Path) {
    forall q :: !(p <= q) ==> ModeAt(T, q) == ModeAt(T', q)
  }

  ghost predicate FreeUnder(T: Todo, p: Path) {
    forall q :: q in T ==> !(p <= q)
  }

  lemma SiblingPaths(dir: Path, a: Name, b: Name, q: Path)
    requires a != b && dir + [a] <= q
    ensures !(dir + [b] <= q)
  {
    assert q[|dir|] == (dir + [a])[|dir|] == a;
    assert (dir + [b])[|dir|] == b;
  }

  lemma {:induction false} SlotFrame(o: Opts, e: Entry, slot: Slot, dir: Path, T: Todo, T': Todo)
    requires AgreeUnder(T, T', dir + [e.name])
    ensures CompleteSlot(o, e, slot, dir, T) == CompleteSlot(o, e, slot, dir, T')
    decreases e, 0
  {
    var p := dir + [e.name];
    assert ModeAt(T, p) == ModeAt(T', p);
    if p !in T && e.node.SDir? && slot.cur.Some? && slot.cur.value.DDir? {
      EntriesFrame(o, e.node.entries, slot.cur.value.kids, p, T, T');
    }
  }

  lemma {:induction false} EntriesFrame(o: Opts, es: seq<Entry>, k: Kids, dir: Path, T: Todo, T': Todo)
    requires forall i :: 0 <= i < |es| ==> AgreeUnder(T, T', dir + [es[i].name])
    ensures CompleteEntries(o, es, k, dir, T) == CompleteEntries(o, es, k, dir, T')
    decreases es, 0
  {
    if es != [] {
      var slot := GetSlot(o, k, es[0].name);
      SlotFrame(o, es[0], slot, dir, T, T');
      forall i | 0 <= i < |es[1..]| ensures AgreeUnder(T, T', dir + [es[1..][i].name]) {
        assert es[1..][i] == es[i + 1];
      }
      EntriesFrame(o, es[1..], PutSlot(o, k, es[0].name, CompleteSlot(o, es[0], slot, dir, T).slot), dir, T, T');
    }
  }

  /** Only entry i of a directory changed, together with the pending work under
      it, and what remains to be done there balances what was recorded: then the
      same holds of the whole directory. */
  lemma {:induction false} OneChanged(o: Opts, es: seq<Entry>, i: nat, k: Kids, slot1: Slot, dir: Path,
                                     T: Todo, T1: Todo, A: multiset<Event>, B: multiset<Event>)
    requires DistinctNames(es) && i < |es| && SameOutside(T, T1, dir + [es[i].name])
    requires var c := CompleteSlot(o, es[i], GetSlot(o, k, es[i].name), dir, T);
             var c1 := CompleteSlot(o, es[i], slot1, dir, T1);
             c1.slot == c.slot && A + c1.log == B + c.log
    ensures var c := CompleteEntries(o, es, k, dir, T);
            var c1 := CompleteEntries(o, es, PutSlot(o, k, es[i].name, slot1), dir, T1);
            c1.kids == c.kids && A + c1.log == B + c.log
    decreases es
  {
    var n, k1 := es[i].name, PutSlot(o, k, es[i].name, slot1);
    if i == 0 {
      GetPut(o, k, n, slot1, n);
      var c := CompleteSlot(o, es[0], GetSlot(o, k, n), dir, T);
      var c1 := CompleteSlot(o, es[0], slot1, dir, T1);
      PutPut(o, k, n, slot1, c.slot);
      forall j | 0 <= j < |es[1..]| ensures AgreeUnder(T, T1, dir + [es[1..][j].name]) {
        assert es[1..][j] == es[j + 1];
        forall q | dir + [es[1..][j].name] <= q ensures ModeAt(T, q) == ModeAt(T1, q) {
          SiblingPaths(dir, es[j + 1].name, n, q);
        }
      }
      var rest := PutSlot(o, k, n, c.slot);
      EntriesFrame(o, es[1..], rest, dir, T, T1);
      Balance(A, B, c1.log, c.log, CompleteEntries(o, es[1..], rest, dir, T).log);
    } else {
      var n0 := es[0].name;
      var slot0 := GetSlot(o, k, n0);
      GetPut(o, k, n, slot1, n0);
      forall q | dir + [n0] <= q ensures ModeAt(T, q) == ModeAt(T1, q) {
        SiblingPaths(dir, n0, n, q);
      }
      SlotFrame(o, es[0], slot0, dir, T, T1);
      var c0 := CompleteSlot(o, es[0], slot0, dir, T);
      var k0 := PutSlot(o, k, n0, c0.slot);
      GetPut(o, k, n0, c0.slot, n);
      PutCommutes(o, k, n, slot1, n0, c0.slot);
      assert es[1..][i - 1] == es[i];
      assert DistinctNames(es[1..]) by {
        forall a, b | 0 <= a < b < |es[1..]| ensures es[1..][a].name != es[1..][b].name {
          assert es[1..][a] == es[a + 1] && es[1..][b] == es[b + 1];
        }
      }
      OneChanged(o, es[1..], i - 1, k0, slot1, dir, T, T1, A, B);
      var t := CompleteEntries(o, es[1..], k0, dir, T);
      var t1 := CompleteEntries(o, es[1..], PutSlot(o, k0, n, slot1), dir, T1);
      Balance(A, B, t1.log, t.log, c0.log);
    }
  }

  lemma Balance(A: multiset<Event>, B: multiset<Event>, x: multiset<Event>, y: multiset<Event>, z: multiset<Event>)
    requires A + x == B + y
    ensures A + (x + z) == B + (y + z) && A + (z + x) == B + (z + y)
  {
    assert A + (x + z) == (A + x) + z && B + (y + z) == (B + y) + z;
    assert z + x == x + z && z + y == y + z;
  }

  // ---------------------------------------------------------------------
  // A shard keeps the plain meaning
  // ---------------------------------------------------------------------

  /** Pending paths never lie one above another. */
  ghost predicate Antichain(T: Todo) {
    forall p, q :: p in T && q in T && p <= q ==> p == q
  }

  ghost predicate NoneAbove(T: Todo, p: Path) {
    forall q :: q in T ==> !(q <= p)
  }

  /** The work under p can start: nothing pending lies above or below. */
  ghost predicate Clear(T: Todo, p: Path) {
    Antichain(T) && FreeUnder(T, p) && NoneAbove(T, p)
  }

  lemma PutMode(T: Todo, p: Path, m: Mode)
    requires Clear(T, p)
    ensures Antichain(T[p := m]) && SameOutside(T, T[p := m], p)
  {
  }

  lemma AllHandleAt(es: seq<Entry>, dir: Path, q: Path)
    ensures ModeAt(AllHandle(es, dir), q) ==
            if |q| == |dir| + 1 && dir <= q && Named(es, q[|dir|]) then Some(Handle) else None
  {
    var T := AllHandle(es, dir);
    if q in T {
      var i :| 0 <= i < |es| && q == dir + [es[i].name];
      assert q[|dir|] == es[i].name;
    }
    if |q| == |dir| + 1 && dir <= q && Named(es, q[|dir|]) {
      var i :| 0 <= i < |es| && es[i].name == q[|dir|];
      assert q == dir + [es[i].name];
    }
  }

  lemma AllHandleClear(T: Todo, es: seq<Entry>, dir: Path)
    requires Clear(T, dir)
    ensures Antichain(T + AllHandle(es, dir)) && SameOutside(T, T + AllHandle(es, dir), dir)
    ensures dir !in T + AllHandle(es, dir)
  {
    var T1 := T + AllHandle(es, dir);
    forall q ensures ModeAt(T1, q) == if ModeAt(AllHandle(es, dir), q).Some? then Some(Handle) else ModeAt(T, q) {
      AllHandleAt(es, dir, q);
    }
    forall q ensures q in AllHandle(es, dir) ==> |q| == |dir| + 1 && dir <= q {
      AllHandleAt(es, dir, q);
    }
    forall p, q | p in T1 && q in T1 && p <= q ensures p == q {
      assert q in AllHandle(es, dir) && |p| <= |dir| ==> p <= dir;
    }
  }

  /** Handling every entry of a directory is the plain walk of its entries. */
  lemma {:induction false} AllPendingIsPlain(o: Opts, es: seq<Entry>, k: Kids, dir: Path, T: Todo)
    requires forall i :: 0 <= i < |es| ==> ModeAt(T, dir + [es[i].name]) == Some(Handle)
    ensures CompleteEntries(o, es, k, dir, T) == PlainEntries(o, es, k, dir)
    decreases es
  {
    if es != [] {
      assert ModeAt(T, dir + [es[0].name]) == Some(Handle);
      forall i | 0 <= i < |es[1..]| ensures ModeAt(T, dir + [es[1..][i].name]) == Some(Handle) {
        assert es[1..][i] == es[i + 1];
      }
      var r := PlainSlot(o, es[0], GetSlot(o, k, es[0].name), dir);
      AllPendingIsPlain(o, es[1..], PutSlot(o, k, es[0].name, r.slot), dir, T);
    }
  }

  lemma {:induction false} ShardSlotCompletes(o: Opts, splitAt: Threshold, e: Entry, slot: Slot, dir: Path, depth: nat, st: St)
    requires WellFormed(e.node) && Clear(st.todo, dir + [e.name]) && Reads(splitAt, e.node)
    ensures var (slot1, st1) := ShardSlot(o, splitAt, e, slot, dir, depth, st);
            var c, r := CompleteSlot(o, e, slot1, dir, st1.todo), PlainSlot(o, e, slot, dir);
            && Antichain(st1.todo) && SameOutside(st.todo, st1.todo, dir + [e.name])
            && c.slot == r.slot && st1.log + c.log == st.log + r.log
    decreases e, 0, 0
  {
    var p := dir + [e.name];
    var st1 := St(if st.budget > 0 then st.budget - 1 else st.budget, st.todo, st.log + multiset{Walked(p)});
    if o.excluded(p) {
      NothingPending(o, e, slot, dir, st.todo);
    } else if e.node.SLeaf? {
      ShardLeafCompletes(o, splitAt, e, slot, dir, depth, st);
    } else {
      var d := Mkdir(o, slot.cur);
      var r := PlainDir(o, e.node, d, p);
      if st1.budget > 0 && depth < MAX_WALK_DEPTH {
        ShardDirCompletes(o, splitAt, e.node, d, p, depth + 1, st1);
        LogOnce(st.log, multiset{Walked(p)}, r.log);
      } else {
        PutMode(st.todo, p, Walk);
        LogOnce(st.log, multiset{Walked(p)}, r.log);
      }
    }
  }

  lemma LogOnce(a: multiset<Event>, b: multiset<Event>, c: multiset<Event>)
    ensures (a + b) + c == a + (b + c)
  {
  }

  lemma ShardLeafCompletes(o: Opts, splitAt: Threshold, e: Entry, slot: Slot, dir: Path, depth: nat, st: St)
    requires e.node.SLeaf? && !o.excluded(dir + [e.name]) && Clear(st.todo, dir + [e.name])
    ensures var (slot1, st1) := ShardSlot(o, splitAt, e, slot, dir, depth, st);
            var c, r := CompleteSlot(o, e, slot1, dir, st1.todo), PlainSlot(o, e, slot, dir);
            && Antichain(st1.todo) && SameOutside(st.todo, st1.todo, dir + [e.name])
            && c.slot == r.slot && st1.log + c.log == st.log + r.log
  {
    var p, leaf := dir + [e.name], e.node.leaf;
    var v, w, aside := Verdict(o, leaf, slot.cur), multiset{Walked(p)}, AsideLog(o, leaf, slot, dir, e.name);
    assert multiset{Walked(p), Did(p, v)} == w + multiset{Did(p, v)};
    if v == Chunked {
      PutMode(st.todo, p, Copy);
      assert ((st.log + w) + aside) + multiset{Did(p, v)} == st.log + ((w + multiset{Did(p, v)}) + aside);
    } else {
      NothingPending(o, e, LeafSlot(o, leaf, slot), dir, st.todo);
      assert (st.log + w) + (multiset{Did(p, v)} + aside) == st.log + ((w + multiset{Did(p, v)}) + aside);
    }
  }

  lemma NothingPending(o: Opts, e: Entry, slot: Slot, dir: Path, T: Todo)
    requires FreeUnder(T, dir + [e.name])
    ensures CompleteSlot(o, e, slot, dir, T) == SlotRes(slot, multiset{})
    decreases e, 0
  {
    if e.node.SDir? && slot.cur.Some? && slot.cur.value.DDir? {
      NothingPendingIn(o, e.node.entries, slot.cur.value.kids, dir + [e.name], T);
    }
  }

  lemma {:induction false} NothingPendingIn(o: Opts, es: seq<Entry>, k: Kids, dir: Path, T: Todo)
    requires FreeUnder(T, dir)
    ensures CompleteEntries(o, es, k, dir, T) == KidsRes(k, multiset{})
    decreases es, 0
  {
    if es != [] {
      assert FreeUnder(T, dir + [es[0].name]);
      NothingPending(o, es[0], GetSlot(o, k, es[0].name), dir, T);
      PutGet(o, k, es[0].name);
      NothingPendingIn(o, es[1..], k, dir, T);
    }
  }

  lemma {:induction false} ShardDirCompletes(o: Opts, splitAt: Threshold, s: Src, d: Dst, dir: Path, depth: nat, st: St)
    requires s.SDir? && d.DDir? && WellFormed(s) && Clear(st.todo, dir) && Reads(splitAt, s)
    ensures var (d1, st1) := ShardDir(o, splitAt, s, d, dir, depth, st);
            var c, r := CompleteDir(o, s, d1, dir, st1.todo), PlainDir(o, s, d, dir);
            && Antichain(st1.todo) && SameOutside(st.todo, st1.todo, dir) && dir !in st1.todo
            && c.dst == r.dst && st1.log + c.log == st.log + r.log
    decreases s, 1, 0
  {
    ListingIff(splitAt, s.entries);
    var k := Swept(o, s.entries, d.kids);
    var l := OrphanLog(o, s.entries, d.kids, dir) + multiset{DirMeta(dir)};
    var st1 := st.(todo := st.todo + AllHandle(s.entries, dir), log := st.log + l);
    AllHandleClear(st.todo, s.entries, dir);
    forall i | 0 <= i < |s.entries| ensures ModeAt(st1.todo, dir + [s.entries[i].name]) == Some(Handle) {
      AllHandleAt(s.entries, dir, dir + [s.entries[i].name]);
    }
    AllPendingIsPlain(o, s.entries, k, dir, st1.todo);
    var t := PlainEntries(o, s.entries, k, dir);
    assert (st.log + l) + t.log == st.log + (l + t.log);
    if !Big(splitAt, s.entries) {
      ShardListCompletes(o, splitAt, s.entries, Names(s.entries), k, dir, depth, st1);
    }
  }

  lemma {:induction false} ActSlotCompletes(o: Opts, splitAt: Threshold, e: Entry, slot: Slot, dir: Path, depth: nat, T: Todo, st: St)
    requires WellFormed(e.node) && Antichain(T) && dir + [e.name] in T && Reads(splitAt, e.node)
    requires st.todo == T - {dir + [e.name]}
    ensures var p := dir + [e.name];
            var (slot1, st1) := ActSlot(o, splitAt, e, slot, dir, depth, T[p], st);
            var c, c1 := CompleteSlot(o, e, slot, dir, T), CompleteSlot(o, e, slot1, dir, st1.todo);
            && Antichain(st1.todo) && SameOutside(T, st1.todo, p)
            && c1.slot == c.slot && st1.log + c1.log == st.log + c.log
    decreases e, 1, 0
  {
    var p := dir + [e.name];
    assert Clear(st.todo, p) && SameOutside(T, st.todo, p);
    match T[p]
    case Handle =>
      ShardSlotCompletes(o, splitAt, e, slot, dir, depth, st);
    case Walk =>
      if e.node.SDir? && slot.cur.Some? && slot.cur.value.DDir? {
        ShardDirCompletes(o, splitAt, e.node, slot.cur.value, p, 0, st);
      } else {
        NothingPending(o, e, slot, dir, st.todo);
      }
    case Copy =>
      NothingPending(o, e, ActSlot(o, splitAt, e, slot, dir, depth, T[p], st).0, dir, st.todo);
  }

  /** A pending name the directory does not have changes nothing. */
  lemma ForgetName(o: Opts, es: seq<Entry>, n: Name, k: Kids, dir: Path, T: Todo)
    requires !Named(es, n)
    ensures CompleteEntries(o, es, k, dir, T) == CompleteEntries(o, es, k, dir, T - {dir + [n]})
  {
    var T0 := T - {dir + [n]};
    forall j | 0 <= j < |es| ensures AgreeUnder(T, T0, dir + [es[j].name]) {
      forall q | dir + [es[j].name] <= q ensures ModeAt(T, q) == ModeAt(T0, q) {
        SiblingPaths(dir, es[j].name, n, q);
      }
    }
    EntriesFrame(o, es, k, dir, T, T0);
  }

  /** A shard over pending names of one directory: what it recorded and what
      remains to be done add up to what was to be done before. */
  lemma {:induction false} ShardListCompletes(o: Opts, splitAt: Threshold, es: seq<Entry>, ns: seq<Name>, k: Kids, dir: Path, depth: nat, st: St)
    requires DistinctNames(es) && WellFormedIn(es) && Antichain(st.todo) && dir !in st.todo && ReadsIn(splitAt, es)
    ensures var (k1, st1) := ShardList(o, splitAt, es, ns, k, dir, depth, st);
            var c, c1 := CompleteEntries(o, es, k, dir, st.todo), CompleteEntries(o, es, k1, dir, st1.todo);
            && Antichain(st1.todo) && SameOutside(st.todo, st1.todo, dir) && dir !in st1.todo
            && c1.kids == c.kids && st1.log + c1.log == st.log + c.log
    decreases es, 0, |ns|
  {
    if ns != [] {
      var n, p, T := ns[0], dir + [ns[0]], st.todo;
      var i := Find(es, n);
      if p in T {
        var st0 := st.(todo := T - {p});
        if i < 0 {
          ForgetName(o, es, n, k, dir, T);
          ShardListCompletes(o, splitAt, es, ns[1..], k, dir, depth, st0);
        } else {
          var slot := GetSlot(o, k, n);
          ActSlotCompletes(o, splitAt, es[i], slot, dir, depth, T, st0);
          var (slot1, st1) := ActSlot(o, splitAt, es[i], slot, dir, depth, T[p], st0);
          OneChanged(o, es, i, k, slot1, dir, T, st1.todo, st1.log, st.log);
          assert ModeAt(T, dir) == ModeAt(st1.todo, dir);
          ShardListCompletes(o, splitAt, es, ns[1..], PutSlot(o, k, n, slot1), dir, depth, st1);
          forall q | !(dir <= q) ensures ModeAt(T, q) == ModeAt(st1.todo, q) {
            assert !(p <= q);
          }
        }
      } else {
        ShardListCompletes(o, splitAt, es, ns[1..], k, dir, depth, st);
      }
    }
  }

  // ---------------------------------------------------------------------
  // A directory read as empty
  // ---------------------------------------------------------------------

  /** At the one threshold whose probe wraps, the source directory counts as
      empty: nothing is handled or left pending, and every destination name is
      destination-only. */
  lemma WrappedDir(o: Opts, s: Src, d: Dst, dir: Path, depth: nat, st: St)
    requires s.SDir? && d.DDir?
    ensures ShardDir(o, U64 - 1, s, d, dir, depth, st) ==
              (DDir(Swept(o, [], d.kids), DirMetaOf(o, s.meta, d.meta)),
               st.(log := st.log + (OrphanLog(o, [], d.kids, dir) + multiset{DirMeta(dir)})))
  {
    ListingIff(U64 - 1, s.entries);
    assert AllHandle([], dir) == map[];
    assert Names([]) == [];
    assert st.todo + map[] == st.todo;
  }

  /** The walk of a directory and what it hands back add up to the plain walk if
      and only if the shard sees the directory. */
  lemma ShardDirCompletesIff(o: Opts, splitAt: Threshold, s: Src, d: Dst, dir: Path, depth: nat, st: St)
    requires s.SDir? && d.DDir? && WellFormed(s) && Clear(st.todo, dir)
    ensures var (d1, st1) := ShardDir(o, splitAt, s, d, dir, depth, st);
            var c, r := CompleteDir(o, s, d1, dir, st1.todo), PlainDir(o, s, d, dir);
            c.dst == r.dst && st1.log + c.log == st.log + r.log <==> Reads(splitAt, s)
  {
    if Reads(splitAt, s) {
      ShardDirCompletes(o, splitAt, s, d, dir, depth, st);
    } else {
      WrappedDir(o, s, d, dir, depth, st);
      var (d1, st1) := ShardDir(o, splitAt, s, d, dir, depth, st);
      NothingPendingIn(o, s.entries, d1.kids, dir, st1.todo);
      FirstIsWalked(o, s, d, dir);
      var x := Walked(dir + [s.entries[0].name]);
      WrappedLogLacks(o, d.kids, dir, x);
      assert (st1.log + CompleteDir(o, s, d1, dir, st1.todo).log)[x] == st.log[x];
      assert (st.log + PlainDir(o, s, d, dir).log)[x] > st.log[x];
    }
  }

  lemma WrappedLogLacks(o: Opts, k: Kids, dir: Path, x: Event)
    requires x.Walked?
    ensures (OrphanLog(o, [], k, dir) + multiset{DirMeta(dir)})[x] == 0
  {
  }

  /** The plain walk handles the first entry. */
  lemma FirstIsWalked(o: Opts, s: Src, d: Dst, dir: Path)
    requires s.SDir? && d.DDir? && s.entries != []
    ensures PlainDir(o, s, d, dir).log[Walked(dir + [s.entries[0].name])] > 0
  {
    var es, k := s.entries, Swept(o, s.entries, d.kids);
    var r := PlainSlot(o, es[0], GetSlot(o, k, es[0].name), dir);
    assert Walked(dir + [es[0].name]) in r.log;
    assert r.log <= PlainEntries(o, es, k, dir).log;
  }
}
