/** Whole sharded runs of the walk: whatever the schedule, budgets, thresholds
    and groupings, running shards until nothing is pending gives the plain walk
    (agent/src/walker.c, coordinator grants abstracted to the schedule). */
module WalkRun {
  import opened WalkModel
  import opened WalkShards
  import SetSize

  /** The shard granted for pending names of directory dir + rest, reached from
      dir; a path that cannot be reached any more is simply dropped. */
  ghost function StepAt(o: Opts, splitAt: Threshold, s: Src, d: Dst, dir: Path, rest: Path, ns: seq<Name>, st: St): (r: (Dst, St))
    requires s.SDir? && d.DDir?
    ensures r.0.DDir?
    decreases |rest|
  {
    if rest == [] then
      var (k, st1) := ShardList(o, splitAt, s.entries, ns, d.kids, dir, 0, st);
      (DDir(k, d.meta), st1)
    else
      var n := rest[0];
      var i := Find(s.entries, n);
      var slot := GetSlot(o, d.kids, n);
      if i >= 0 && dir + [n] !in st.todo && s.entries[i].node.SDir? && slot.cur.Some? && slot.cur.value.DDir? then
        var (d1, st1) := StepAt(o, splitAt, s.entries[i].node, slot.cur.value, dir + [n], rest[1..], ns, st);
        (DDir(PutSlot(o, d.kids, n, slot.(cur := Some(d1))), d.meta), st1)
      else (d, st.(todo := st.todo - Targets(dir + rest, ns)))
  }

  function Targets(dir: Path, ns: seq<Name>): set<Path> {
    set n | n in ns :: dir + [n]
  }

  /** The granted names lead to directories the shard's threshold lets it see. */
  predicate ReadsAt(t: Threshold, s: Src, rest: Path)
    requires s.SDir?
    decreases |rest|
  {
    if rest == [] then ReadsIn(t, s.entries)
    else
      var i := Find(s.entries, rest[0]);
      i >= 0 && s.entries[i].node.SDir? ==> ReadsAt(t, s.entries[i].node, rest[1..])
  }

  lemma {:induction false} OtherThresholdsRead(t: Threshold, s: Src, rest: Path)
    requires s.SDir? && t != U64 - 1
    ensures ReadsAt(t, s, rest)
    decreases |rest|
  {
    if rest != [] {
      var i := Find(s.entries, rest[0]);
      if i >= 0 && s.entries[i].node.SDir? { OtherThresholdsRead(t, s.entries[i].node, rest[1..]); }
    }
  }

  /** What was recorded and what remains to be done under dir add up as before. */
  ghost predicate Balanced(o: Opts, s: Src, dir: Path, d: Dst, st: St, d1: Dst, st1: St)
    requires s.SDir? && d.DDir? && d1.DDir?
  {
    var c, c1 := CompleteDir(o, s, d, dir, st.todo), CompleteDir(o, s, d1, dir, st1.todo);
    && Antichain(st1.todo) && SameOutside(st.todo, st1.todo, dir) && dir !in st1.todo
    && c1.dst == c.dst && st1.log + c1.log == st.log + c.log
  }

  lemma {:induction false} StepAtCompletes(o: Opts, splitAt: Threshold, s: Src, d: Dst, dir: Path, rest: Path, ns: seq<Name>, st: St)
    requires s.SDir? && d.DDir? && WellFormed(s) && Antichain(st.todo) && dir !in st.todo && ReadsAt(splitAt, s, rest)
    ensures var (d1, st1) := StepAt(o, splitAt, s, d, dir, rest, ns, st);
            Balanced(o, s, dir, d, st, d1, st1)
    decreases |rest|
  {
    var es := s.entries;
    if rest == [] {
      ShardListCompletes(o, splitAt, es, ns, d.kids, dir, 0, st);
    } else {
      var n, p := rest[0], dir + [rest[0]];
      var i := Find(es, n);
      var slot := GetSlot(o, d.kids, n);
      if i >= 0 && p !in st.todo && es[i].node.SDir? && slot.cur.Some? && slot.cur.value.DDir? {
        StepAtCompletes(o, splitAt, es[i].node, slot.cur.value, p, rest[1..], ns, st);
        var (d1, st1) := StepAt(o, splitAt, es[i].node, slot.cur.value, p, rest[1..], ns, st);
        BalancedAbove(o, s, d, dir, i, slot, st, d1, st1);
      } else {
        Blocked(o, s, d, dir, rest, ns, st.todo);
      }
    }
  }

  /** A balance below entry i is one of the whole directory. */
  lemma BalancedAbove(o: Opts, s: Src, d: Dst, dir: Path, i: nat, slot: Slot, st: St, d1: Dst, st1: St)
    requires s.SDir? && d.DDir? && d1.DDir? && WellFormed(s) && Antichain(st.todo) && dir !in st.todo
    requires i < |s.entries| && s.entries[i].node.SDir? && slot == GetSlot(o, d.kids, s.entries[i].name)
    requires slot.cur.Some? && slot.cur.value.DDir? && dir + [s.entries[i].name] !in st.todo
    requires Balanced(o, s.entries[i].node, dir + [s.entries[i].name], slot.cur.value, st, d1, st1)
    ensures Balanced(o, s, dir, d, st, DDir(PutSlot(o, d.kids, s.entries[i].name, slot.(cur := Some(d1))), d.meta), st1)
  {
    OneChanged(o, s.entries, i, d.kids, slot.(cur := Some(d1)), dir, st.todo, st1.todo, st1.log, st.log);
    assert ModeAt(st.todo, dir) == ModeAt(st1.todo, dir);
  }

  lemma Blocked(o: Opts, s: Src, d: Dst, dir: Path, rest: Path, ns: seq<Name>, T: Todo)
    requires s.SDir? && d.DDir? && DistinctNames(s.entries) && Antichain(T) && dir !in T && rest != []
    requires var i, slot := Find(s.entries, rest[0]), GetSlot(o, d.kids, rest[0]);
             !(i >= 0 && dir + [rest[0]] !in T && s.entries[i].node.SDir? && slot.cur.Some? && slot.cur.value.DDir?)
    ensures var T1 := T - Targets(dir + rest, ns);
            && Antichain(T1) && SameOutside(T, T1, dir)
            && CompleteDir(o, s, d, dir, T1) == CompleteDir(o, s, d, dir, T)
  {
    var n, p, es := rest[0], dir + [rest[0]], s.entries;
    var T1 := T - Targets(dir + rest, ns);
    forall t | t in Targets(dir + rest, ns) ensures p <= t && p != t && dir <= t {
      var m :| m in ns && t == dir + rest + [m];
      assert t[..|p|] == p;
    }
    var i := Find(es, n);
    if i < 0 {
      forall j | 0 <= j < |es| ensures AgreeUnder(T, T1, dir + [es[j].name]) {
        forall q | dir + [es[j].name] <= q ensures ModeAt(T, q) == ModeAt(T1, q) {
          SiblingPaths(dir, es[j].name, n, q);
        }
      }
      EntriesFrame(o, es, d.kids, dir, T, T1);
    } else if p in T {
      assert T1 == T;
    } else {
      var slot := GetSlot(o, d.kids, n);
      PutGet(o, d.kids, n);
      OneChanged(o, es, i, d.kids, slot, dir, T, T1, multiset{}, multiset{});
      assert multiset{} + CompleteEntries(o, es, d.kids, dir, T1).log == CompleteEntries(o, es, d.kids, dir, T1).log;
      assert multiset{} + CompleteEntries(o, es, d.kids, dir, T).log == CompleteEntries(o, es, d.kids, dir, T).log;
    }
  }

  // ---------------------------------------------------------------------
  // Progress
  // ---------------------------------------------------------------------

  lemma {:induction false} SlotLogs(o: Opts, splitAt: Threshold, e: Entry, slot: Slot, dir: Path, depth: nat, st: St)
    ensures |ShardSlot(o, splitAt, e, slot, dir, depth, st).1.log| > |st.log|
    decreases e, 0, 0
  {
    var st1 := St(if st.budget > 0 then st.budget - 1 else st.budget, st.todo, st.log + multiset{Walked(dir + [e.name])});
    if e.node.SDir? && st1.budget > 0 && depth < MAX_WALK_DEPTH {
      DirLogs(o, splitAt, e.node, Mkdir(o, slot.cur), dir + [e.name], depth + 1, st1);
    }
  }

  lemma {:induction false} DirLogs(o: Opts, splitAt: Threshold, s: Src, d: Dst, dir: Path, depth: nat, st: St)
    requires s.SDir? && d.DDir?
    ensures |ShardDir(o, splitAt, s, d, dir, depth, st).1.log| > |st.log|
    decreases s, 1, 0
  {
    var es := Listing(splitAt, s.entries);
    var k := Swept(o, es, d.kids);
    var st1 := st.(todo := st.todo + AllHandle(es, dir),
                   log := st.log + (OrphanLog(o, es, d.kids, dir) + multiset{DirMeta(dir)}));
    assert |st1.log| > |st.log|;
    if !Big(splitAt, s.entries) {
      ListLogs(o, splitAt, s.entries, Names(es), k, dir, depth, st1);
    }
  }

  /** A shard that records nothing has done nothing but drop its targets. */
  lemma {:induction false} ListLogs(o: Opts, splitAt: Threshold, es: seq<Entry>, ns: seq<Name>, k: Kids, dir: Path, depth: nat, st: St)
    ensures var st1 := ShardList(o, splitAt, es, ns, k, dir, depth, st).1;
            && |st1.log| >= |st.log|
            && (|st1.log| == |st.log| ==> st1.todo == st.todo - Targets(dir, ns))
    decreases es, 0, |ns|
  {
    if ns != [] {
      var n, p := ns[0], dir + [ns[0]];
      var i := Find(es, n);
      assert Targets(dir, ns) == {p} + Targets(dir, ns[1..]);
      if p in st.todo {
        var st0 := st.(todo := st.todo - {p});
        if i < 0 {
          ListLogs(o, splitAt, es, ns[1..], k, dir, depth, st0);
        } else {
          var slot := GetSlot(o, k, n);
          var (slot1, st1) := ActSlot(o, splitAt, es[i], slot, dir, depth, st.todo[p], st0);
          assert |st1.log| >= |st.log| && (|st1.log| == |st.log| ==> st1 == st0) by {
            match st.todo[p]
            case Handle => SlotLogs(o, splitAt, es[i], slot, dir, depth, st0);
            case Walk =>
              if es[i].node.SDir? && slot.cur.Some? && slot.cur.value.DDir? {
                DirLogs(o, splitAt, es[i].node, slot.cur.value, p, 0, st0);
              }
            case Copy =>
          }
          ListLogs(o, splitAt, es, ns[1..], PutSlot(o, k, n, slot1), dir, depth, st1);
        }
      } else {
        ListLogs(o, splitAt, es, ns[1..], k, dir, depth, st);
      }
    }
  }

  lemma {:induction false} StepLogs(o: Opts, splitAt: Threshold, s: Src, d: Dst, dir: Path, rest: Path, ns: seq<Name>, st: St)
    requires s.SDir? && d.DDir?
    ensures var st1 := StepAt(o, splitAt, s, d, dir, rest, ns, st).1;
            && |st1.log| >= |st.log|
            && (|st1.log| == |st.log| ==> st1.todo == st.todo - Targets(dir + rest, ns))
    decreases |rest|
  {
    if rest == [] {
      ListLogs(o, splitAt, s.entries, ns, d.kids, dir, 0, st);
      assert dir + rest == dir;
    } else {
      var n := rest[0];
      var i := Find(s.entries, n);
      var slot := GetSlot(o, d.kids, n);
      if i >= 0 && dir + [n] !in st.todo && s.entries[i].node.SDir? && slot.cur.Some? && slot.cur.value.DDir? {
        StepLogs(o, splitAt, s.entries[i].node, slot.cur.value, dir + [n], rest[1..], ns, st);
        assert dir + [n] + rest[1..] == dir + rest;
      }
    }
  }

  // ---------------------------------------------------------------------
  // Runs
  // ---------------------------------------------------------------------

  /** One granted shard: a directory, names of it, and the shard's own knobs. */
  datatype Grant = Grant(dir: Path, names: seq<Name>, budget: int, splitAt: Threshold)
  type Schedule = nat -> Grant

  datatype World = World(dst: Dst, todo: Todo, log: multiset<Event>)

  /** The scheduler's wish if it names pending work, some pending path if not. */
  ghost function NextGrant(T: Todo, g: Grant): (r: Grant)
    requires T != map[] && [] !in T
    ensures (exists n :: n in r.names && r.dir + [n] in T) && r.splitAt == g.splitAt
  {
    if exists n :: n in g.names && g.dir + [n] in T then g
    else
      var q :| q in T;
      assert q[..|q| - 1] + [q[|q| - 1]] == q;
      Grant(q[..|q| - 1], [q[|q| - 1]], g.budget, g.splitAt)
  }

  ghost function Step(o: Opts, s: Src, w: World, g: Grant): World
    requires s.SDir? && w.dst.DDir?
  {
    var (d, st) := StepAt(o, g.splitAt, s, w.dst, [], g.dir, g.names, St(g.budget, w.todo, w.log));
    World(d, st.todo, st.log)
  }

  ghost predicate Good(w: World) {
    w.dst.DDir? && Antichain(w.todo) && [] !in w.todo
  }

  /** Every step keeps the meaning ... */
  lemma StepBalances(o: Opts, s: Src, w: World, g: Grant)
    requires s.SDir? && WellFormed(s) && Good(w) && ReadsAt(g.splitAt, s, g.dir)
    ensures var w1 := Step(o, s, w, g);
            var c, c1 := CompleteDir(o, s, w.dst, [], w.todo), CompleteDir(o, s, w1.dst, [], w1.todo);
            Good(w1) && c1.dst == c.dst && w1.log + c1.log == w.log + c.log
  {
    StepAtCompletes(o, g.splitAt, s, w.dst, [], g.dir, g.names, St(g.budget, w.todo, w.log));
  }

  /** ... and makes progress: it records something or drops its targets. */
  lemma StepMoves(o: Opts, s: Src, w: World, g: Grant)
    requires s.SDir? && w.dst.DDir?
    ensures var w1 := Step(o, s, w, g);
            |w1.log| >= |w.log| && (|w1.log| == |w.log| ==> w1.todo == w.todo - Targets(g.dir, g.names))
  {
    assert [] + g.dir == g.dir;
    StepLogs(o, g.splitAt, s, w.dst, [], g.dir, g.names, St(g.budget, w.todo, w.log));
  }

  /** So what is left to record, or else what is pending, gets less. */
  lemma Shrinks(w: World, w1: World, left: multiset<Event>, left1: multiset<Event>, g: Grant)
    requires w1.log + left1 == w.log + left && |w1.log| >= |w.log|
    requires |w1.log| == |w.log| ==> w1.todo == w.todo - Targets(g.dir, g.names)
    requires exists n :: n in g.names && g.dir + [n] in w.todo
    ensures |left1| < |left| || (|left1| == |left| && |w1.todo| < |w.todo|)
  {
    Weights(w1.log, left1, w.log, left);
    if |w1.log| == |w.log| {
      var n :| n in g.names && g.dir + [n] in w.todo;
      var q := g.dir + [n];
      assert q in Targets(g.dir, g.names);
      FewerPending(w1.todo, w.todo, q);
    }
  }

  lemma Weights(a1: multiset<Event>, b1: multiset<Event>, a: multiset<Event>, b: multiset<Event>)
    requires a1 + b1 == a + b
    ensures |a1| + |b1| == |a| + |b|
  {
    assert |a1 + b1| == |a1| + |b1| && |a + b| == |a| + |b|;
  }

  lemma StepKeepsMeaning(o: Opts, s: Src, w: World, g: Grant)
    requires s.SDir? && WellFormed(s) && Good(w)
    requires exists n :: n in g.names && g.dir + [n] in w.todo
    requires ReadsAt(g.splitAt, s, g.dir)
    ensures var w1 := Step(o, s, w, g);
            var c, c1 := CompleteDir(o, s, w.dst, [], w.todo), CompleteDir(o, s, w1.dst, [], w1.todo);
            && Good(w1) && c1.dst == c.dst && w1.log + c1.log == w.log + c.log
            && (|c1.log| < |c.log| || (|c1.log| == |c.log| && |w1.todo| < |w.todo|))
  {
    var w1 := Step(o, s, w, g);
    StepBalances(o, s, w, g);
    StepMoves(o, s, w, g);
    Shrinks(w, w1, CompleteDir(o, s, w.dst, [], w.todo).log, CompleteDir(o, s, w1.dst, [], w1.todo).log, g);
  }

  lemma FewerPending(T1: Todo, T: Todo, q: Path)
    requires q in T && T1.Keys <= T.Keys - {q}
    ensures |T1| < |T|
  {
    SetSize.LackingOne(T1.Keys, T.Keys, q);
    assert |T1| == |T1.Keys| && |T| == |T.Keys|;
  }

  /** No granted shard has the one threshold at which directories read as empty. */
  ghost predicate AllRead(sched: Schedule) {
    forall k :: sched(k).splitAt != U64 - 1
  }

  /** Grants shards until nothing is pending. That this function is
      well-founded is the termination of every run. */
  ghost function Drain(o: Opts, s: Src, w: World, sched: Schedule, k: nat): World
    requires s.SDir? && WellFormed(s) && Good(w) && AllRead(sched)
    decreases |CompleteDir(o, s, w.dst, [], w.todo).log|, |w.todo|
  {
    if w.todo == map[] then w
    else
      var g := NextGrant(w.todo, sched(k));
      OtherThresholdsRead(g.splitAt, s, g.dir);
      StepKeepsMeaning(o, s, w, g);
      Drain(o, s, Step(o, s, w, g), sched, k + 1)
  }

  lemma {:induction false} DrainKeepsMeaning(o: Opts, s: Src, w: World, sched: Schedule, k: nat)
    requires s.SDir? && WellFormed(s) && Good(w) && AllRead(sched)
    ensures var e := Drain(o, s, w, sched, k);
            var c := CompleteDir(o, s, w.dst, [], w.todo);
            e.todo == map[] && e.dst == c.dst && e.log == w.log + c.log
    decreases |CompleteDir(o, s, w.dst, [], w.todo).log|, |w.todo|
  {
    if w.todo == map[] {
      NothingPendingIn(o, s.entries, w.dst.kids, [], w.todo);
    } else {
      var g := NextGrant(w.todo, sched(k));
      OtherThresholdsRead(g.splitAt, s, g.dir);
      StepKeepsMeaning(o, s, w, g);
      DrainKeepsMeaning(o, s, Step(o, s, w, g), sched, k + 1);
    }
  }

  /** What the root shard leaves. */
  ghost function Root(o: Opts, s: Src, d: Dst, first: Grant): World
    requires s.SDir? && d.DDir?
  {
    var (d0, st) := ShardDir(o, first.splitAt, s, d, [], 0, St(first.budget, map[], multiset{}));
    World(d0, st.todo, st.log)
  }

  lemma RootGood(o: Opts, s: Src, d: Dst, first: Grant)
    requires s.SDir? && d.DDir? && WellFormed(s)
    ensures Good(Root(o, s, d, first))
    ensures first.splitAt == U64 - 1 ==> Root(o, s, d, first).todo == map[]
  {
    if first.splitAt == U64 - 1 {
      WrappedDir(o, s, d, [], 0, St(first.budget, map[], multiset{}));
    } else {
      ShardDirCompletes(o, first.splitAt, s, d, [], 0, St(first.budget, map[], multiset{}));
    }
  }

  /** The thresholds of a run: a root shard at the odd one leaves nothing to
      grant, so then the schedule does not matter. */
  ghost predicate Granted(first: Grant, sched: Schedule) {
    first.splitAt == U64 - 1 || AllRead(sched)
  }

  /** The root shard, then any schedule. */
  ghost function Run(o: Opts, s: Src, d: Dst, first: Grant, sched: Schedule): World
    requires s.SDir? && d.DDir? && WellFormed(s) && Granted(first, sched)
  {
    RootGood(o, s, d, first);
    var w := Root(o, s, d, first);
    if w.todo == map[] then w else Drain(o, s, w, sched, 0)
  }

  /** Sharded walk equals plain walk: every run ends with nothing pending; and it
      ends with the destination the plain walk leaves, and exactly its records (the
      same entries handled, directories walked and orphans reported, each as
      often), if and only if the root shard sees the root. */
  lemma ShardedEqualsPlain(o: Opts, s: Src, d: Dst, first: Grant, sched: Schedule)
    requires s.SDir? && d.DDir? && WellFormed(s) && Granted(first, sched)
    ensures var w, r := Run(o, s, d, first, sched), PlainDir(o, s, d, []);
            && w.todo == map[]
            && (w.dst == r.dst && w.log == r.log <==> Reads(first.splitAt, s))
  {
    var st0 := St(first.budget, map[], multiset{});
    var w0 := Root(o, s, d, first);
    RootGood(o, s, d, first);
    ShardDirCompletesIff(o, first.splitAt, s, d, [], 0, st0);
    assert st0.log + PlainDir(o, s, d, []).log == PlainDir(o, s, d, []).log;
    if w0.todo == map[] {
      NothingPendingIn(o, s.entries, w0.dst.kids, [], w0.todo);
      assert w0.log + multiset{} == w0.log;
    } else {
      DrainKeepsMeaning(o, s, w0, sched, 0);
    }
  }

  /** With the threshold 2^64 - 1 nothing is copied, whatever the source: every
      destination name is reported, and the run is over. */
  lemma WrappedRunCopiesNothing(o: Opts, s: Src, d: Dst, first: Grant, sched: Schedule)
    requires s.SDir? && d.DDir? && WellFormed(s) && first.splitAt == U64 - 1
    ensures Run(o, s, d, first, sched) ==
              World(DDir(Swept(o, [], d.kids), DirMetaOf(o, s.meta, d.meta)), map[],
                    OrphanLog(o, [], d.kids, []) + multiset{DirMeta([])})
  {
    WrappedDir(o, s, d, [], 0, St(first.budget, map[], multiset{}));
    var l := OrphanLog(o, [], d.kids, []) + multiset{DirMeta([])};
    assert multiset{} + l == l;
  }

  // ---------------------------------------------------------------------
  // Runs of a job
  // ---------------------------------------------------------------------

  const SPREAD_SPLIT: Threshold := 4000

  /** A granted shard has the job's threshold or, while the coordinator spreads
      the job over the fleet, an override that is never above it. */
  predicate Offered(t: Threshold, g: Grant) {
    g.splitAt == t || g.splitAt == if 0 < t < SPREAD_SPLIT then t else SPREAD_SPLIT
  }

  /** The override only ever lowers a job's threshold, or sets one. */
  lemma OverrideOnlyLowers(t: Threshold, g: Grant)
    requires t >= 0
    ensures Offered(t, g) <==> g.splitAt == t || (g.splitAt == 4000 && (t == 0 || t > 4000))
  {
  }

  ghost predicate AllOffered(t: Threshold, grants: seq<Grant>) {
    forall k :: 0 <= k < |grants| ==> Offered(t, grants[k])
  }

  /** These grants, one after the other, as long as anything is pending. */
  ghost function Play(o: Opts, s: Src, w: World, grants: seq<Grant>): (r: World)
    requires s.SDir? && w.dst.DDir?
    ensures r.dst.DDir?
    decreases |grants|
  {
    if grants == [] || w.todo == map[] then w else Play(o, s, Step(o, s, w, grants[0]), grants[1..])
  }

  lemma {:induction false} PlayKeepsMeaning(o: Opts, s: Src, w: World, grants: seq<Grant>)
    requires s.SDir? && WellFormed(s) && Good(w)
    requires forall k :: 0 <= k < |grants| ==> grants[k].splitAt != U64 - 1
    ensures var e := Play(o, s, w, grants);
            var c, c1 := CompleteDir(o, s, w.dst, [], w.todo), CompleteDir(o, s, e.dst, [], e.todo);
            Good(e) && c1.dst == c.dst && e.log + c1.log == w.log + c.log
    decreases |grants|
  {
    if grants != [] && w.todo != map[] {
      OtherThresholdsRead(grants[0].splitAt, s, grants[0].dir);
      StepBalances(o, s, w, grants[0]);
      PlayKeepsMeaning(o, s, Step(o, s, w, grants[0]), grants[1..]);
    }
  }

  /** The run is not over, or it did what the plain walk does. */
  ghost predicate EndsPlain(o: Opts, s: Src, d: Dst, first: Grant, grants: seq<Grant>)
    requires s.SDir? && d.DDir?
  {
    var w, r := Play(o, s, Root(o, s, d, first), grants), PlainDir(o, s, d, []);
    w.todo == map[] ==> w.dst == r.dst && w.log == r.log
  }

  lemma SightedRunEndsPlain(o: Opts, s: Src, d: Dst, first: Grant, grants: seq<Grant>)
    requires s.SDir? && d.DDir? && WellFormed(s) && Reads(first.splitAt, s)
    requires s.entries == [] || forall k :: 0 <= k < |grants| ==> grants[k].splitAt != U64 - 1
    ensures EndsPlain(o, s, d, first, grants)
  {
    var w0, r := Root(o, s, d, first), PlainDir(o, s, d, []);
    RootGood(o, s, d, first);
    ShardDirCompletesIff(o, first.splitAt, s, d, [], 0, St(first.budget, map[], multiset{}));
    assert multiset{} + r.log == r.log;
    var w := Play(o, s, w0, grants);
    if s.entries == [] {
      RootOfNothing(o, s, d, first);
    } else {
      PlayKeepsMeaning(o, s, w0, grants);
    }
    NothingPendingIn(o, s.entries, w.dst.kids, [], map[]);
    assert w.log + multiset{} == w.log;
  }

  lemma RootOfNothing(o: Opts, s: Src, d: Dst, first: Grant)
    requires s.SDir? && d.DDir? && s.entries == []
    ensures Root(o, s, d, first).todo == map[]
  {
    ListingIff(first.splitAt, s.entries);
    assert AllHandle([], []) == map[] && Names([]) == [];
    var k, log := Swept(o, [], d.kids), multiset{} + (OrphanLog(o, [], d.kids, []) + multiset{DirMeta([])});
    var st := St(first.budget, map[] + AllHandle([], []), log);
    assert ShardList(o, first.splitAt, [], [], k, [], 0, st) == (k, st);
  }

  /** Every finished run of a job, spread or not at any time, is the plain walk if
      and only if the job's threshold lets a shard see the root. */
  lemma JobRunsArePlainIff(o: Opts, s: Src, d: Dst, t: Threshold)
    requires s.SDir? && d.DDir? && WellFormed(s) && t >= 0
    ensures (forall first: Grant, grants: seq<Grant> :: Offered(t, first) && AllOffered(t, grants) ==> EndsPlain(o, s, d, first, grants))
       <==> Reads(t, s)
  {
    if Reads(t, s) {
      forall first: Grant, grants: seq<Grant> | Offered(t, first) && AllOffered(t, grants) ensures EndsPlain(o, s, d, first, grants) {
        SightedRunEndsPlain(o, s, d, first, grants);
      }
    } else {
      var first := Grant([], [], 1, t);
      RootGood(o, s, d, first);
      ShardDirCompletesIff(o, t, s, d, [], 0, St(1, map[], multiset{}));
      var w0, r := Root(o, s, d, first), PlainDir(o, s, d, []);
      NothingPendingIn(o, s.entries, w0.dst.kids, [], map[]);
      assert w0.log + multiset{} == w0.log && multiset{} + r.log == r.log;
      assert Offered(t, first) && AllOffered(t, []) && !EndsPlain(o, s, d, first, []);
    }
  }
}
