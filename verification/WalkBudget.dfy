/** How far one shard goes (agent/src/walker.c walk_dir, handle_entry, budget_init):
    every entry costs one unit, a subdirectory is handed back once the budget is
    spent or the tree is too deep, and a directory over the threshold is handed
    back name by name. */
module WalkBudget {
  import opened WalkModel
  import opened WalkShards

  // ---------------------------------------------------------------------
  // The budget only falls
  // ---------------------------------------------------------------------

  /** What is left of a budget after n entries. */
  function Less(b: int, n: nat): int {
    if b <= 0 then b else if b <= n then 0 else b - n
  }

  /** Every entry handled costs at least one, and the budget stops at zero. */
  lemma {:induction false} SlotCosts(o: Opts, t: Threshold, e: Entry, slot: Slot, dir: Path, depth: nat, st: St)
    ensures var b := ShardSlot(o, t, e, slot, dir, depth, st).1.budget;
            b <= Less(st.budget, 1) && (st.budget >= 0 ==> b >= 0)
    decreases e, 0, 0
  {
    if !o.excluded(dir + [e.name]) && e.node.SDir? {
      var st1 := St(Less(st.budget, 1), st.todo, st.log + multiset{Walked(dir + [e.name])});
      DirCosts(o, t, e.node, Mkdir(o, slot.cur), dir + [e.name], depth + 1, st1);
    }
  }

  lemma {:induction false} DirCosts(o: Opts, t: Threshold, s: Src, d: Dst, dir: Path, depth: nat, st: St)
    requires s.SDir? && d.DDir?
    ensures var b := ShardDir(o, t, s, d, dir, depth, st).1.budget;
            b <= st.budget && (st.budget >= 0 ==> b >= 0)
    decreases s, 1, 0
  {
    var es := Listing(t, s.entries);
    var st1 := st.(todo := st.todo + AllHandle(es, dir),
                   log := st.log + (OrphanLog(o, es, d.kids, dir) + multiset{DirMeta(dir)}));
    ListCosts(o, t, s.entries, Names(es), Swept(o, es, d.kids), dir, depth, st1);
  }

  lemma {:induction false} ListCosts(o: Opts, t: Threshold, es: seq<Entry>, ns: seq<Name>, k: Kids, dir: Path, depth: nat, st: St)
    ensures var b := ShardList(o, t, es, ns, k, dir, depth, st).1.budget;
            b <= st.budget && (st.budget >= 0 ==> b >= 0)
    decreases es, 0, |ns|
  {
    if ns != [] {
      var p, i := dir + [ns[0]], Find(es, ns[0]);
      if p !in st.todo {
        ListCosts(o, t, es, ns[1..], k, dir, depth, st);
      } else {
        var st0 := st.(todo := st.todo - {p});
        if i < 0 {
          ListCosts(o, t, es, ns[1..], k, dir, depth, st0);
        } else {
          var slot := GetSlot(o, k, ns[0]);
          var (slot1, st1) := ActSlot(o, t, es[i], slot, dir, depth, st.todo[p], st0);
          ActCosts(o, t, es[i], slot, dir, depth, st.todo[p], st0);
          ListCosts(o, t, es, ns[1..], PutSlot(o, k, ns[0], slot1), dir, depth, st1);
        }
      }
    }
  }

  lemma {:induction false} ActCosts(o: Opts, t: Threshold, e: Entry, slot: Slot, dir: Path, depth: nat, mode: Mode, st: St)
    ensures var b := ActSlot(o, t, e, slot, dir, depth, mode, st).1.budget;
            b <= st.budget && (st.budget >= 0 ==> b >= 0)
    decreases e, 1, 0
  {
    match mode
    case Handle => SlotCosts(o, t, e, slot, dir, depth, st);
    case Walk =>
      if e.node.SDir? && slot.cur.Some? && slot.cur.value.DDir? {
        DirCosts(o, t, e.node, slot.cur.value, dir + [e.name], 0, st);
      }
    case Copy =>
  }

  // ---------------------------------------------------------------------
  // When work is handed back
  // ---------------------------------------------------------------------

  /** The shard goes into a subdirectory. */
  lemma Descends(o: Opts, t: Threshold, e: Entry, slot: Slot, dir: Path, depth: nat, st: St)
    requires e.node.SDir? && !o.excluded(dir + [e.name]) && st.budget > 1 && depth < MAX_WALK_DEPTH
    ensures var p := dir + [e.name];
            var st1 := St(st.budget - 1, st.todo, st.log + multiset{Walked(p)});
            ShardSlot(o, t, e, slot, dir, depth, st).1 == ShardDir(o, t, e.node, Mkdir(o, slot.cur), p, depth + 1, st1).1
  {
  }

  /** A subdirectory is handed back whole if and only if the budget is spent by it
      or the walk is as deep as it may go. */
  lemma HandedBackIff(o: Opts, t: Threshold, e: Entry, slot: Slot, dir: Path, depth: nat, st: St)
    requires e.node.SDir? && WellFormed(e.node) && Clear(st.todo, dir + [e.name]) && t != U64 - 1
    requires !o.excluded(dir + [e.name])
    ensures var todo := ShardSlot(o, t, e, slot, dir, depth, st).1.todo;
            ModeAt(todo, dir + [e.name]) == if st.budget <= 1 || depth >= 256 then Some(Walk) else None
  {
    var p := dir + [e.name];
    if st.budget > 1 && depth < MAX_WALK_DEPTH {
      var st1 := St(st.budget - 1, st.todo, st.log + multiset{Walked(p)});
      Descends(o, t, e, slot, dir, depth, st);
      ShardDirCompletes(o, t, e.node, Mkdir(o, slot.cur), p, depth + 1, st1);
    }
  }

  /** A file is queued for chunked copying if and only if the decision says so; it
      then has no record yet, where any other entry has its own. */
  lemma BigFileQueuedIff(o: Opts, t: Threshold, e: Entry, slot: Slot, dir: Path, depth: nat, st: St)
    requires e.node.SLeaf? && !o.excluded(dir + [e.name]) && dir + [e.name] !in st.todo
    ensures var p, v := dir + [e.name], Verdict(o, e.node.leaf, slot.cur);
            var st1 := ShardSlot(o, t, e, slot, dir, depth, st).1;
            && ModeAt(st1.todo, p) == (if v == Chunked then Some(Copy) else None)
            && st1.log[Did(p, v)] == st.log[Did(p, v)] + if v == Chunked then 0 else 1
  {
  }

  /** A directory is handed back name by name if and only if it has more entries
      than the threshold, and then no entry of it is handled here. */
  lemma SplitIff(o: Opts, t: Threshold, s: Src, d: Dst, dir: Path, depth: nat, st: St, i: nat)
    requires s.SDir? && d.DDir? && WellFormed(s) && Clear(st.todo, dir) && 0 <= t < U64 - 1 && i < |s.entries|
    ensures var st1, p := ShardDir(o, t, s, d, dir, depth, st).1, dir + [s.entries[i].name];
            && (ModeAt(st1.todo, p) == Some(Handle) <==> t != 0 && |s.entries| > t)
            && (t != 0 && |s.entries| > t ==> st1.budget == st.budget && st1.log[Walked(p)] == st.log[Walked(p)])
  {
    ListingIff(t, s.entries);
    var es, p := s.entries, dir + [s.entries[i].name];
    var k := Swept(o, es, d.kids);
    var st1 := st.(todo := st.todo + AllHandle(es, dir),
                   log := st.log + (OrphanLog(o, es, d.kids, dir) + multiset{DirMeta(dir)}));
    AllHandleAt(es, dir, p);
    assert Named(es, es[i].name);
    if !Big(t, es) {
      AllHandleClear(st.todo, es, dir);
      WorkedOff(o, t, es, Names(es), k, dir, depth, st1, i);
    }
  }

  /** A name on the list is not left to be handled again. */
  lemma {:induction false} WorkedOff(o: Opts, t: Threshold, es: seq<Entry>, ns: seq<Name>, k: Kids, dir: Path, depth: nat, st: St, i: nat)
    requires DistinctNames(es) && WellFormedIn(es) && Antichain(st.todo) && dir !in st.todo && t != U64 - 1 && i < |es|
    requires es[i].name in ns || ModeAt(st.todo, dir + [es[i].name]) != Some(Handle)
    ensures ModeAt(ShardList(o, t, es, ns, k, dir, depth, st).1.todo, dir + [es[i].name]) != Some(Handle)
    decreases |ns|
  {
    if ns != [] {
      var p, T, j := dir + [ns[0]], st.todo, Find(es, ns[0]);
      var q := dir + [es[i].name];
      assert p == q <==> ns[0] == es[i].name by { assert p[|dir|] == ns[0] && q[|dir|] == es[i].name; }
      if p !in T {
        WorkedOff(o, t, es, ns[1..], k, dir, depth, st, i);
      } else {
        var st0 := st.(todo := T - {p});
        if j < 0 {
          WorkedOff(o, t, es, ns[1..], k, dir, depth, st0, i);
        } else {
          var slot := GetSlot(o, k, ns[0]);
          ActSlotCompletes(o, t, es[j], slot, dir, depth, T, st0);
          var (slot1, st1) := ActSlot(o, t, es[j], slot, dir, depth, T[p], st0);
          ActDone(o, t, es[j], slot, dir, depth, T[p], st0);
          if p != q { assert ModeAt(T, q) == ModeAt(st1.todo, q) by { SiblingPaths(dir, es[i].name, ns[0], q); } }
          assert ModeAt(T, dir) == ModeAt(st1.todo, dir);
          WorkedOff(o, t, es, ns[1..], PutSlot(o, k, ns[0], slot1), dir, depth, st1, i);
        }
      }
    }
  }

  lemma ActDone(o: Opts, t: Threshold, e: Entry, slot: Slot, dir: Path, depth: nat, mode: Mode, st: St)
    requires WellFormed(e.node) && Clear(st.todo, dir + [e.name]) && t != U64 - 1
    ensures ModeAt(ActSlot(o, t, e, slot, dir, depth, mode, st).1.todo, dir + [e.name]) != Some(Handle)
  {
    var p := dir + [e.name];
    if mode == Handle {
      if e.node.SDir? && !o.excluded(p) { HandedBackIff(o, t, e, slot, dir, depth, st); }
    } else if mode == Walk && e.node.SDir? && slot.cur.Some? && slot.cur.value.DDir? {
      ShardDirCompletes(o, t, e.node, slot.cur.value, p, 0, st);
    }
  }

  // ---------------------------------------------------------------------
  // A budget that is enough
  // ---------------------------------------------------------------------

  /** The entries of a subtree the filters leave in sight. */
  ghost function InSight(o: Opts, es: seq<Entry>, dir: Path): nat
    decreases es
  {
    if es == [] then 0 else 1 + Below(o, es[0], dir) + InSight(o, es[1..], dir)
  }

  ghost function Below(o: Opts, e: Entry, dir: Path): nat
    decreases e
  {
    if o.excluded(dir + [e.name]) || e.node.SLeaf? then 0 else InSight(o, e.node.entries, dir + [e.name])
  }

  /** No directory has more entries than the threshold or lies too deep. */
  ghost predicate Modest(t: Threshold, es: seq<Entry>, depth: nat)
    decreases es
  {
    && (t != 0 ==> |es| <= t)
    && (forall i :: 0 <= i < |es| && es[i].node.SDir? ==> depth < 256 && Modest(t, es[i].node.entries, depth + 1))
  }

  lemma {:induction false} SlotWhole(o: Opts, t: Threshold, e: Entry, slot: Slot, dir: Path, depth: nat, st: St)
    requires WellFormed(e.node) && o.chunkThreshold == 0 && 0 <= t < U64 - 1 && FreeUnder(st.todo, dir + [e.name])
    requires e.node.SDir? ==> depth < 256 && Modest(t, e.node.entries, depth + 1)
    requires st.budget > 1 + Below(o, e, dir)
    ensures var st1 := ShardSlot(o, t, e, slot, dir, depth, st).1;
            st1.todo == st.todo && st1.budget == st.budget - 1 - Below(o, e, dir)
    decreases e, 0
  {
    var p := dir + [e.name];
    if !o.excluded(p) && e.node.SDir? {
      var st1 := St(st.budget - 1, st.todo, st.log + multiset{Walked(p)});
      Descends(o, t, e, slot, dir, depth, st);
      EnoughBudget(o, t, e.node, Mkdir(o, slot.cur), p, depth + 1, st1);
    }
  }

  lemma {:induction false} ListWhole(o: Opts, t: Threshold, es: seq<Entry>, i: nat, k: Kids, dir: Path, depth: nat, T: Todo, st: St)
    requires DistinctNames(es) && WellFormedIn(es) && o.chunkThreshold == 0 && 0 <= t < U64 - 1 && i <= |es|
    requires forall j :: 0 <= j < |es| && es[j].node.SDir? ==> depth < 256 && Modest(t, es[j].node.entries, depth + 1)
    requires FreeUnder(T, dir) && st.todo == T + AllHandle(es[i..], dir) && st.budget > InSight(o, es[i..], dir)
    ensures var st1 := ShardList(o, t, es, Names(es)[i..], k, dir, depth, st).1;
            st1.todo == T && st1.budget == st.budget - InSight(o, es[i..], dir)
    decreases es, 0, |es| - i
  {
    if i == |es| {
      assert AllHandle(es[i..], dir) == map[] && Names(es)[i..] == [];
    } else {
      var e, p := es[i], dir + [es[i].name];
      assert es[i..][0] == e && es[i..][1..] == es[i + 1..];
      OneOff(T, es, dir, i);
      ListStep(o, t, es, i, k, dir, depth, st);
      var st0 := st.(todo := st.todo - {p});
      var slot := GetSlot(o, k, e.name);
      SlotWhole(o, t, e, slot, dir, depth, st0);
      var (slot1, st1) := ShardSlot(o, t, e, slot, dir, depth, st0);
      ListWhole(o, t, es, i + 1, PutSlot(o, k, e.name, slot1), dir, depth, T, st1);
    }
  }

  lemma OneOff(T: Todo, es: seq<Entry>, dir: Path, i: nat)
    requires DistinctNames(es) && i < |es| && FreeUnder(T, dir)
    ensures var p, T1 := dir + [es[i].name], T + AllHandle(es[i..], dir);
            && ModeAt(T1, p) == Some(Handle)
            && T1 - {p} == T + AllHandle(es[i + 1..], dir) && FreeUnder(T1 - {p}, p)
  {
    var p, T1, T2 := dir + [es[i].name], T + AllHandle(es[i..], dir), T + AllHandle(es[i + 1..], dir);
    assert es[i..][0] == es[i] && es[i..][1..] == es[i + 1..];
    assert Named(es[i..], es[i].name) && !Named(es[i + 1..], es[i].name);
    forall q ensures ModeAt(T1 - {p}, q) == ModeAt(T2, q) && (p <= q ==> ModeAt(T2, q) == None) {
      AllHandleAt(es[i..], dir, q);
      AllHandleAt(es[i + 1..], dir, q);
      if dir <= q && |q| == |dir| + 1 { TailNamed(es, i, q[|dir|]); assert q == dir + [q[|dir|]]; }
      if p <= q { assert p[|dir|] == es[i].name == q[|dir|] && q[..|dir|] == dir; }
    }
    SameModes(T1 - {p}, T2);
    AllHandleAt(es[i..], dir, p);
  }

  lemma TailNamed(es: seq<Entry>, i: nat, n: Name)
    requires i < |es|
    ensures Named(es[i..], n) <==> es[i].name == n || Named(es[i + 1..], n)
  {
    if Named(es[i..], n) {
      var j :| 0 <= j < |es[i..]| && es[i..][j].name == n;
      if j > 0 { assert es[i + 1..][j - 1].name == n; }
    }
    if Named(es[i + 1..], n) {
      var j :| 0 <= j < |es[i + 1..]| && es[i + 1..][j].name == n;
      assert es[i..][j + 1].name == n;
    }
    assert es[i..][0] == es[i];
  }

  lemma SameModes(A: Todo, B: Todo)
    requires forall q :: ModeAt(A, q) == ModeAt(B, q)
    ensures A == B
  {
    forall q ensures q in A <==> q in B { assert ModeAt(A, q) == ModeAt(B, q); }
    forall q | q in A ensures A[q] == B[q] { assert ModeAt(A, q) == ModeAt(B, q); }
  }

  /** A shard with more budget than entries in sight, in a tree that is neither too
      wide nor too deep and has no big files, hands nothing back and spends one
      unit per entry. */
  lemma {:induction false} EnoughBudget(o: Opts, t: Threshold, s: Src, d: Dst, dir: Path, depth: nat, st: St)
    requires s.SDir? && d.DDir? && WellFormed(s) && o.chunkThreshold == 0 && 0 <= t < U64 - 1
    requires Modest(t, s.entries, depth) && FreeUnder(st.todo, dir) && st.budget > InSight(o, s.entries, dir)
    ensures var st1 := ShardDir(o, t, s, d, dir, depth, st).1;
            st1.todo == st.todo && st1.budget == st.budget - InSight(o, s.entries, dir)
    decreases s, 1
  {
    ListingIff(t, s.entries);
    var es := s.entries;
    var st1 := st.(todo := st.todo + AllHandle(es, dir),
                   log := st.log + (OrphanLog(o, es, d.kids, dir) + multiset{DirMeta(dir)}));
    assert es[0..] == es && Names(es)[0..] == Names(es);
    ListWhole(o, t, es, 0, Swept(o, es, d.kids), dir, depth, st.todo, st1);
  }
}
