/** One walk shard as the agent runs it (agent/src/walker.c walk_ctx, walk_dir,
    handle_entry, handle_orphan, remove_dst, queue_split): a budget that counts
    down, counters and journal records that accumulate, and work handed back in
    split frames. Proved to do what ShardDir says. */
module WalkExecutor {
  import opened WalkModel
  import opened WalkShards

  /** q lies at or below one of the first i entries of dir. */
  ghost predicate Worked(es: seq<Entry>, i: nat, dir: Path, q: Path) {
    exists j :: 0 <= j < i && j < |es| && dir + [es[j].name] <= q
  }

  /** After i entries: below them the pending work is what was handed back; all
      else is as it was. */
  ghost predicate Midway(es: seq<Entry>, i: nat, dir: Path, T1: Todo, T: Todo, h1: Todo, h: Todo) {
    && (forall q :: !Worked(es, i, dir, q) ==> ModeAt(T, q) == ModeAt(T1, q) && ModeAt(h, q) == ModeAt(h1, q))
    && (forall q :: Worked(es, i, dir, q) ==> ModeAt(T, q) == ModeAt(h, q))
  }

  lemma WorkedStep(es: seq<Entry>, i: nat, dir: Path, q: Path)
    requires i < |es|
    ensures Worked(es, i + 1, dir, q) <==> Worked(es, i, dir, q) || dir + [es[i].name] <= q
  {
    if dir + [es[i].name] <= q {
      assert 0 <= i < i + 1;
    }
  }

  lemma NotWorkedBelow(es: seq<Entry>, i: nat, dir: Path, q: Path)
    requires DistinctNames(es) && i < |es| && dir + [es[i].name] <= q
    ensures !Worked(es, i, dir, q)
  {
    if Worked(es, i, dir, q) {
      var j :| 0 <= j < i && j < |es| && dir + [es[j].name] <= q;
      SiblingPaths(dir, es[i].name, es[j].name, q);
    }
  }

  /** Before entry i is handled, it is the only pending path at or below itself. */
  lemma NextIsClear(es: seq<Entry>, i: nat, dir: Path, T0: Todo, T: Todo, h0: Todo, h: Todo)
    requires DistinctNames(es) && i < |es| && FreeUnder(T0, dir) && FreeUnder(h0, dir)
    requires Midway(es, i, dir, T0 + AllHandle(es, dir), T, h0, h)
    ensures var p := dir + [es[i].name];
            p in T && T[p] == Handle && FreeUnder(T - {p}, p) && FreeUnder(h, p)
  {
    var p := dir + [es[i].name];
    assert Named(es, es[i].name);
    forall q | p <= q
      ensures ModeAt(T, q) == (if q == p then Some(Handle) else None) && ModeAt(h, q) == None
    {
      NotWorkedBelow(es, i, dir, q);
      AllHandleAt(es, dir, q);
      assert dir <= q;
      assert q !in T0 && q !in h0;
      assert |q| == |dir| + 1 ==> q == p;
      assert q[|dir|] == p[|dir|] == es[i].name;
    }
    assert ModeAt(T, p) == Some(Handle);
    assert forall q :: q in T - {p} ==> q in T && ModeAt(T, q).Some?;
    assert forall q :: q in h ==> ModeAt(h, q).Some?;
  }

  lemma MidwayStep(es: seq<Entry>, i: nat, dir: Path, T1: Todo, T: Todo, T': Todo, h1: Todo, h: Todo, h': Todo)
    requires i < |es| && Midway(es, i, dir, T1, T, h1, h)
    requires var p := dir + [es[i].name];
             && AgreeUnder(T', h', p)
             && SameOutside(T - {p}, T', p) && SameOutside(h, h', p)
    ensures Midway(es, i + 1, dir, T1, T', h1, h')
  {
    var p := dir + [es[i].name];
    forall q ensures
      && (!Worked(es, i + 1, dir, q) ==> ModeAt(T', q) == ModeAt(T1, q) && ModeAt(h', q) == ModeAt(h1, q))
      && (Worked(es, i + 1, dir, q) ==> ModeAt(T', q) == ModeAt(h', q))
    {
      WorkedStep(es, i, dir, q);
      if !(p <= q) {
        assert ModeAt(T - {p}, q) == ModeAt(T, q);
        assert ModeAt(T - {p}, q) == ModeAt(T', q) && ModeAt(h, q) == ModeAt(h', q);
      }
    }
  }

  /** All entries done: the directory's pending work is what was handed back. */
  lemma MidwayEnd(es: seq<Entry>, dir: Path, T0: Todo, T: Todo, h0: Todo, h: Todo)
    requires FreeUnder(T0, dir) && FreeUnder(h0, dir)
    requires Midway(es, |es|, dir, T0 + AllHandle(es, dir), T, h0, h)
    ensures AgreeUnder(T, h, dir) && SameOutside(T0, T, dir) && SameOutside(h0, h, dir)
  {
    forall q ensures
      && (dir <= q ==> ModeAt(T, q) == ModeAt(h, q))
      && (!(dir <= q) ==> ModeAt(T, q) == ModeAt(T0, q) && ModeAt(h, q) == ModeAt(h0, q))
    {
      AllHandleAt(es, dir, q);
      if dir <= q {
        assert q !in T0 && q !in h0;
        if |q| == |dir| + 1 && Named(es, q[|dir|]) {
          var j :| 0 <= j < |es| && es[j].name == q[|dir|];
          assert dir + [es[j].name] <= q;
        }
      }
    }
  }

  lemma BothPut(T: Todo, h: Todo, p: Path, m: Mode)
    requires FreeUnder(T, p) && FreeUnder(h, p)
    ensures AgreeUnder(T[p := m], h[p := m], p)
    ensures SameOutside(T, T[p := m], p) && SameOutside(h, h[p := m], p)
  {
  }

  lemma BothFree(T: Todo, h: Todo, p: Path)
    requires FreeUnder(T, p) && FreeUnder(h, p)
    ensures AgreeUnder(T, h, p)
  {
  }

  lemma AllHandedBack(es: seq<Entry>, dir: Path, T0: Todo, h0: Todo)
    requires FreeUnder(T0, dir) && FreeUnder(h0, dir)
    ensures AgreeUnder(T0 + AllHandle(es, dir), h0 + AllHandle(es, dir), dir)
    ensures SameOutside(T0, T0 + AllHandle(es, dir), dir) && SameOutside(h0, h0 + AllHandle(es, dir), dir)
  {
    forall q ensures ModeAt(AllHandle(es, dir), q).Some? ==> dir <= q {
      AllHandleAt(es, dir, q);
    }
  }

  ghost predicate WalkOk(s: Src) {
    s.SDir? && WellFormed(s)
  }

  class WalkShard {
    const o: Opts
    const splitAt: Threshold
    var budget: int
    var handed: Todo               // paths in the split frames sent so far
    var log: multiset<Event>       // counters and journal records

    constructor (o: Opts, splitAt: Threshold, budget: nat)
      requires splitAt >= 0
      ensures this.o == o && this.splitAt == splitAt && this.budget == budget
      ensures handed == map[] && log == multiset{}
    {
      this.o, this.splitAt, this.budget := o, splitAt, budget;
      handed, log := map[], multiset{};
    }

    method Emit(e: Event)
      modifies this`log
      ensures log == old(log) + multiset{e}
    {
      log := log + multiset{e};
    }

    /** remove_dst: a non-empty directory in the way is renamed aside and
        reported; anything else is unlinked. */
    method RemoveDst(slot: Slot, dir: Path, n: Name) returns (slot': Slot)
      modifies this`log
      ensures slot' == Slot(None, AsideAfter(slot))
      ensures log == old(log) + if InTheWay(slot.cur) then multiset{Orphan(dir, Stale(n, o.pass))} else multiset{}
    {
      slot' := slot.(cur := None);
      if InTheWay(slot.cur) {
        slot' := slot'.(aside := slot.cur);
        Emit(Orphan(dir, Stale(n, o.pass)));
      }
    }

    /** handle_entry on anything but a directory. */
    method HandleLeaf(leaf: Leaf, slot: Slot, dir: Path, n: Name) returns (slot': Slot)
      modifies this`log, this`handed
      ensures slot' == LeafSlotQueued(o, leaf, slot)
      ensures var v := Verdict(o, leaf, slot.cur);
              var p := dir + [n];
              var aside := AsideLog(o, leaf, slot, dir, n);
              && handed == (if v == Chunked then old(handed)[p := Copy] else old(handed))
              && log == old(log) + (if v == Chunked then aside else multiset{Did(p, v)} + aside)
    {
      var v := Verdict(o, leaf, slot.cur);
      var p := dir + [n];
      slot' := slot;
      match v {
        case Chunked =>
          // a regular file stays until the rename that publishes the copy
          if !(slot.cur.Some? && slot.cur.value.DLeaf? && slot.cur.value.leaf.File?) {
            slot' := RemoveDst(slot, dir, n);
          }
          handed := handed[p := Copy];
        case Copied =>
          slot' := RemoveDst(slot, dir, n);
          slot' := slot'.(cur := Some(DLeaf(Made(o, leaf))));
          Emit(Did(p, v));
        case MetaFixed =>
          var d := slot.cur.value.leaf;
          slot' := slot.(cur := Some(DLeaf(File(d.size, d.mtime, d.data, FixedMeta(o, leaf.meta, d.meta)))));
          Emit(Did(p, v));
        case _ =>
          Emit(Did(p, v));
      }
    }

    /** handle_entry. */
    method HandleEntry(e: Entry, slot: Slot, dir: Path, depth: nat, ghost T: Todo) returns (slot': Slot, ghost T': Todo)
      requires WellFormed(e.node) && FreeUnder(T, dir + [e.name]) && FreeUnder(handed, dir + [e.name])
      modifies this
      ensures (slot', St(budget, T', log)) == ShardSlot(o, splitAt, e, slot, dir, depth, St(old(budget), T, old(log)))
      ensures AgreeUnder(T', handed, dir + [e.name])
      ensures SameOutside(T, T', dir + [e.name]) && SameOutside(old(handed), handed, dir + [e.name])
      decreases e, 0
    {
      var p := dir + [e.name];
      slot', T' := slot, T;
      BothFree(T, handed, p);
      Emit(Walked(p));
      if budget > 0 { budget := budget - 1; }
      if o.excluded(p) { return; }
      if e.node.SLeaf? {
        BothPut(T, handed, p, Copy);
        slot' := HandleLeaf(e.node.leaf, slot, dir, e.name);
        if Verdict(o, e.node.leaf, slot.cur) == Chunked { T' := T[p := Copy]; }
      } else {
        var d;
        d, T' := EnterDir(e.node, Mkdir(o, slot.cur), p, depth, T);
        slot' := slot.(cur := Some(d));
      }
    }

    /** A subdirectory: descend while the budget and the depth cap allow, else
        hand it back. */
    method EnterDir(s: Src, d: Dst, p: Path, depth: nat, ghost T: Todo) returns (d': Dst, ghost T': Todo)
      requires WalkOk(s) && d.DDir? && FreeUnder(T, p) && FreeUnder(handed, p)
      modifies this
      ensures d'.DDir?
      ensures (d', St(budget, T', log)) ==
                if old(budget) > 0 && depth < MAX_WALK_DEPTH
                then ShardDir(o, splitAt, s, d, p, depth + 1, St(old(budget), T, old(log)))
                else (d, St(old(budget), T[p := Walk], old(log)))
      ensures AgreeUnder(T', handed, p)
      ensures SameOutside(T, T', p) && SameOutside(old(handed), handed, p)
      decreases s, 2
    {
      if budget > 0 && depth < MAX_WALK_DEPTH {
        d', T' := WalkDir(s, d, p, depth + 1, T);
      } else {
        // queue_split
        BothPut(T, handed, p, Walk);
        handed := handed[p := Walk];
        d', T' := d, T[p := Walk];
      }
    }

    /** The destination-only names: temps are reclaimed, the rest reported. */
    method HandleOrphans(es: seq<Entry>, k: Kids, dir: Path) returns (k': Kids)
      modifies this`log
      ensures k' == Swept(o, es, k) && log == old(log) + OrphanLog(o, es, k, dir)
    {
      k' := k;
      ghost var told: set<DName> := {};
      var todo := k.Keys;
      while |todo| > 0
        invariant todo <= k.Keys && told <= k.Keys
        invariant forall x :: x in told <==> x in k && x !in todo && IsOrphan(es, x) && !o.isTemp(x)
        invariant forall x :: x in k' <==> x in k && (x in todo || !Reclaimed(o, es, k, x))
        invariant forall x :: x in k' ==> k'[x] == k[x]
        invariant log == old(log) + Reports(dir, told)
        decreases |todo|
      {
        var x :| x in todo;
        todo := todo - {x};
        if IsOrphan(es, x) {
          if o.isTemp(x) {
            if !o.isLive(x) && k[x].DLeaf? { k' := k' - {x}; }
          } else {
            ToldOne(dir, told, x);
            told := told + {x};
            Emit(Orphan(dir, x));
          }
        }
      }
      AllTold(o, es, k, dir, told);
      assert k' == Swept(o, es, k);
    }

    /** walk_dir: a directory over the threshold is handed back by name; the
        entries of any other are handled here, one after the other. */
    method WalkDir(s: Src, d: Dst, dir: Path, depth: nat, ghost T: Todo) returns (d': Dst, ghost T': Todo)
      requires WalkOk(s) && d.DDir? && FreeUnder(T, dir) && FreeUnder(handed, dir)
      modifies this
      ensures d'.DDir?
      ensures (d', St(budget, T', log)) == ShardDir(o, splitAt, s, d, dir, depth, St(old(budget), T, old(log)))
      ensures AgreeUnder(T', handed, dir)
      ensures SameOutside(T, T', dir) && SameOutside(old(handed), handed, dir)
      decreases s, 1
    {
      ListingIff(splitAt, s.entries);
      var es, big := ReadSource(s.entries);
      var k := HandleOrphans(es, d.kids, dir);
      Emit(DirMeta(dir));
      T' := T + AllHandle(es, dir);
      assert log == old(log) + (OrphanLog(o, es, d.kids, dir) + multiset{DirMeta(dir)});
      var m := DirMetaOf(o, s.meta, d.meta);
      if big {
        AllHandedBack(es, dir, T, handed);
        handed := handed + AllHandle(es, dir);
      } else if es != [] {
        k, T' := WalkEntries(es, k, dir, depth, T);
      } else {
        AllHandedBack([], dir, T, handed);
        assert AllHandle([], dir) == map[] && handed + map[] == handed && Names([]) == [];
      }
      d' := DDir(k, m);
    }

    /** The probe of walk_dir: read one name more than the threshold, and start
        over if the directory is to be split. */
    method ReadSource(all: seq<Entry>) returns (es: seq<Entry>, big: bool)
      ensures es == Listing(splitAt, all) && big == Big(splitAt, all)
    {
      var limit := if splitAt == 0 then None else Some((splitAt + 1) % U64);
      es := ReadEntriesUpto(all, limit);
      big := splitAt != 0 && |es| > splitAt;
      if splitAt < 0 || big {
        big := true;
        es := all; // rewinddir: streaming starts from the top
      }
    }

    /** read_entries_upto */
    method ReadEntriesUpto(all: seq<Entry>, limit: Option<nat>) returns (es: seq<Entry>)
      ensures es == ReadUpto(all, limit)
    {
      es := [];
      var n := 0;
      while n < |all| && (limit.Some? ==> n < limit.value)
        invariant 0 <= n <= |all| && es == all[..n]
        invariant limit.Some? ==> n <= limit.value
      {
        es := es + [all[n]];
        n := n + 1;
      }
      assert n == |all| ==> es == all;
    }

    /** A directory shard from start to end: its split frames name exactly the
        work ShardDir leaves pending. */
    method ProcessShard(s: Src, d: Dst, dir: Path) returns (d': Dst)
      requires WalkOk(s) && d.DDir? && handed == map[] && log == multiset{}
      modifies this
      ensures (d', St(budget, handed, log)) == ShardDir(o, splitAt, s, d, dir, 0, St(old(budget), map[], multiset{}))
    {
      ghost var T;
      d', T := WalkDir(s, d, dir, 0, map[]);
      SameTodo(T, handed, dir);
    }

    method WalkEntries(es: seq<Entry>, k0: Kids, dir: Path, depth: nat, ghost T: Todo) returns (k: Kids, ghost T': Todo)
      requires DistinctNames(es) && WellFormedIn(es) && FreeUnder(T, dir) && FreeUnder(handed, dir)
      modifies this
      ensures (k, St(budget, T', log)) ==
                ShardList(o, splitAt, es, Names(es), k0, dir, depth, St(old(budget), T + AllHandle(es, dir), old(log)))
      ensures AgreeUnder(T', handed, dir)
      ensures SameOutside(T, T', dir) && SameOutside(old(handed), handed, dir)
      decreases es, 0
    {
      k, T' := k0, T + AllHandle(es, dir);
      ghost var h0 := handed;
      ghost var whole := ShardList(o, splitAt, es, Names(es), k0, dir, depth, St(budget, T', log));
      assert Names(es)[0..] == Names(es);
      var i := 0;
      while i < |es|
        invariant 0 <= i <= |es|
        invariant whole == ShardList(o, splitAt, es, Names(es)[i..], k, dir, depth, St(budget, T', log))
        invariant Midway(es, i, dir, T + AllHandle(es, dir), T', h0, handed)
      {
        ghost var p := dir + [es[i].name];
        ghost var T0, h := T', handed;
        NextIsClear(es, i, dir, T, T', h0, handed);
        ListStep(o, splitAt, es, i, k, dir, depth, St(budget, T', log));
        var slot;
        slot, T' := HandleEntry(es[i], GetSlot(o, k, es[i].name), dir, depth, T' - {p});
        MidwayStep(es, i, dir, T + AllHandle(es, dir), T0, T', h0, h, handed);
        k := PutSlot(o, k, es[i].name, slot);
        i := i + 1;
      }
      MidwayEnd(es, dir, T, T', h0, handed);
    }
  }

  lemma SameTodo(T: Todo, h: Todo, dir: Path)
    requires AgreeUnder(T, h, dir) && SameOutside(map[], T, dir) && SameOutside(map[], h, dir)
    ensures T == h
  {
    forall q ensures ModeAt(T, q) == ModeAt(h, q) {
      if !(dir <= q) { assert ModeAt(map[], q) == None; }
    }
    forall q ensures q in T <==> q in h { assert ModeAt(T, q) == ModeAt(h, q); }
    forall q | q in T ensures T[q] == h[q] { assert ModeAt(T, q) == ModeAt(h, q); }
  }

  /** The records of these destination-only names. */
  ghost function Reports(dir: Path, told: set<DName>): multiset<Event> {
    multiset(set x | x in told :: Orphan(dir, x))
  }

  lemma AllTold(o: Opts, es: seq<Entry>, k: Kids, dir: Path, told: set<DName>)
    requires forall x :: x in told <==> x in k && IsOrphan(es, x) && !o.isTemp(x)
    ensures Reports(dir, told) == OrphanLog(o, es, k, dir)
  {
    assert (set x | x in told :: Orphan(dir, x)) == (set x | x in k && IsOrphan(es, x) && !o.isTemp(x) :: Orphan(dir, x));
  }

  lemma ToldOne(dir: Path, told: set<DName>, x: DName)
    requires x !in told
    ensures Reports(dir, told + {x}) == Reports(dir, told) + multiset{Orphan(dir, x)}
  {
    var a := set y | y in told :: Orphan(dir, y);
    assert Orphan(dir, x) !in a;
    assert (set y | y in told + {x} :: Orphan(dir, y)) == a + {Orphan(dir, x)};
  }
}
