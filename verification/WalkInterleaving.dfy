/** Walk shards running side by side (agent/src/main.c worker_main,
    agent/src/copy.c copy_thread): one step is one entry handled, or one directory
    opened, by one of the shards that run. Of the entries and subdirectories it
    meets a shard keeps some for itself and hands the others back. */
module WalkInterleaving {
  import opened WalkModel
  import opened WalkShards
  import opened WalkRun

  /** mine[i]: pending paths shard i has been granted or has met and kept. */
  datatype Fleet = Fleet(w: World, mine: map<nat, set<Path>>)

  datatype Act =
    | Grant(i: nat, p: Path)                       // a pending path nobody has goes to shard i
    | Handle(i: nat, p: Path, keep: set<Path>)     // shard i handles one of its paths

  /** One entry, with nothing below it done in the same step. */
  ghost function One(o: Opts, s: Src, w: World, p: Path): World
    requires s.SDir? && w.dst.DDir? && p != []
  {
    Step(o, s, w, WalkRun.Grant(p[..|p| - 1], [p[|p| - 1]], 0, -1))
  }

  ghost function Mine(f: Fleet, i: nat): set<Path> {
    if i in f.mine then f.mine[i] else {}
  }

  ghost function Apply(o: Opts, s: Src, f: Fleet, a: Act): Fleet
    requires s.SDir? && f.w.dst.DDir?
  {
    match a
    case Grant(i, p) =>
      if p in f.w.todo && (forall j :: j in f.mine ==> p !in f.mine[j])
      then f.(mine := f.mine[i := Mine(f, i) + {p}]) else f
    case Handle(i, p, keep) =>
      if p in Mine(f, i) && p in f.w.todo && p != [] then
        var w' := One(o, s, f.w, p);
        var met := w'.todo.Keys - f.w.todo.Keys;
        Fleet(w', f.mine[i := (Mine(f, i) - {p}) + met * keep])
      else f
  }

  ghost predicate AllDirs(o: Opts, s: Src, f: Fleet, acts: seq<Act>)
    requires s.SDir?
    decreases |acts|
  {
    f.w.dst.DDir? && (acts != [] ==> AllDirs(o, s, Apply(o, s, f, acts[0]), acts[1..]))
  }

  ghost function RunFrom(o: Opts, s: Src, f: Fleet, acts: seq<Act>): Fleet
    requires s.SDir? && AllDirs(o, s, f, acts)
    decreases |acts|
  {
    if acts == [] then f else RunFrom(o, s, Apply(o, s, f, acts[0]), acts[1..])
  }

  /** Shard 0 has opened the root and met its entries. */
  ghost function Begin(o: Opts, s: Src, d: Dst): Fleet
    requires s.SDir? && d.DDir?
  {
    var (d0, st) := ShardDir(o, -1, s, d, [], 0, St(0, map[], multiset{}));
    Fleet(World(d0, st.todo, st.log), map[0 := st.todo.Keys])
  }

  // ---------------------------------------------------------------------
  // Meaning
  // ---------------------------------------------------------------------

  /** Whatever is left, done plainly, ends where the plain walk ends. */
  ghost predicate OnCourse(o: Opts, s: Src, w: World, goal: DirRes)
    requires s.SDir?
  {
    && Good(w)
    && CompleteDir(o, s, w.dst, [], w.todo).dst == goal.dst
    && w.log + CompleteDir(o, s, w.dst, [], w.todo).log == goal.log
  }

  lemma BeginOnCourse(o: Opts, s: Src, d: Dst)
    requires s.SDir? && d.DDir? && WellFormed(s)
    ensures OnCourse(o, s, Begin(o, s, d).w, PlainDir(o, s, d, []))
  {
    var st0 := St(0, map[], multiset{});
    ShardDirCompletes(o, -1, s, d, [], 0, st0);
    assert st0.log + PlainDir(o, s, d, []).log == PlainDir(o, s, d, []).log;
  }

  /** One entry handled by any shard keeps the course and lowers what is left. */
  lemma OneOnCourse(o: Opts, s: Src, w: World, p: Path, goal: DirRes)
    requires s.SDir? && WellFormed(s) && OnCourse(o, s, w, goal) && p in w.todo && p != []
    ensures OnCourse(o, s, One(o, s, w, p), goal)
    ensures var c, c1 := CompleteDir(o, s, w.dst, [], w.todo), CompleteDir(o, s, One(o, s, w, p).dst, [], One(o, s, w, p).todo);
            |c1.log| < |c.log| || (|c1.log| == |c.log| && |One(o, s, w, p).todo| < |w.todo|)
  {
    var g := WalkRun.Grant(p[..|p| - 1], [p[|p| - 1]], 0, -1);
    assert g.dir + [p[|p| - 1]] == p && p[|p| - 1] in g.names;
    OtherThresholdsRead(g.splitAt, s, g.dir);
    StepKeepsMeaning(o, s, w, g);
  }

  lemma ApplyOnCourse(o: Opts, s: Src, f: Fleet, a: Act, goal: DirRes)
    requires s.SDir? && WellFormed(s) && OnCourse(o, s, f.w, goal)
    ensures OnCourse(o, s, Apply(o, s, f, a).w, goal)
  {
    if a.Handle? && a.p in Mine(f, a.i) && a.p in f.w.todo && a.p != [] {
      OneOnCourse(o, s, f.w, a.p, goal);
    }
  }

  lemma {:induction false} RunOnCourse(o: Opts, s: Src, f: Fleet, acts: seq<Act>, goal: DirRes)
    requires s.SDir? && WellFormed(s) && OnCourse(o, s, f.w, goal)
    ensures AllDirs(o, s, f, acts) && OnCourse(o, s, RunFrom(o, s, f, acts).w, goal)
    decreases |acts|
  {
    if acts != [] {
      ApplyOnCourse(o, s, f, acts[0], goal);
      RunOnCourse(o, s, Apply(o, s, f, acts[0]), acts[1..], goal);
    }
  }

  /** However the entries of running shards interleave, once nothing is pending
      the destination and the records are the plain walk's. */
  lemma InterleavedEqualsPlain(o: Opts, s: Src, d: Dst, acts: seq<Act>)
    requires s.SDir? && d.DDir? && WellFormed(s)
    ensures AllDirs(o, s, Begin(o, s, d), acts)
    ensures var w, r := RunFrom(o, s, Begin(o, s, d), acts).w, PlainDir(o, s, d, []);
            w.todo == map[] ==> w.dst == r.dst && w.log == r.log
  {
    var goal := PlainDir(o, s, d, []);
    BeginOnCourse(o, s, d);
    RunOnCourse(o, s, Begin(o, s, d), acts, goal);
    var w := RunFrom(o, s, Begin(o, s, d), acts).w;
    if w.todo == map[] {
      NothingPendingIn(o, s.entries, w.dst.kids, [], w.todo);
      assert w.log + multiset{} == w.log;
    }
  }

  // ---------------------------------------------------------------------
  // Termination
  // ---------------------------------------------------------------------

  /** The act handles an entry. */
  ghost predicate Effective(f: Fleet, a: Act) {
    a.Handle? && a.p in Mine(f, a.i) && a.p in f.w.todo && a.p != []
  }

  /** What is left: records to come, and pending paths. */
  ghost function Left(o: Opts, s: Src, f: Fleet): (nat, nat)
    requires s.SDir? && f.w.dst.DDir?
  {
    (|CompleteDir(o, s, f.w.dst, [], f.w.todo).log|, |f.w.todo|)
  }

  ghost predicate Less(a: (nat, nat), b: (nat, nat)) {
    a.0 < b.0 || (a.0 == b.0 && a.1 < b.1)
  }

  /** An act that handles an entry leaves less, any other leaves as much. */
  lemma EffectiveLowers(o: Opts, s: Src, f: Fleet, a: Act, goal: DirRes)
    requires s.SDir? && WellFormed(s) && OnCourse(o, s, f.w, goal)
    ensures OnCourse(o, s, Apply(o, s, f, a).w, goal)
    ensures if Effective(f, a) then Less(Left(o, s, Apply(o, s, f, a)), Left(o, s, f))
            else Left(o, s, Apply(o, s, f, a)) == Left(o, s, f)
  {
    ApplyOnCourse(o, s, f, a, goal);
    if Effective(f, a) { OneOnCourse(o, s, f.w, a.p, goal); }
  }

  /** The fleet after the first k of endlessly many acts. */
  ghost function After(o: Opts, s: Src, f: Fleet, acts: nat -> Act, k: nat, goal: DirRes): (r: Fleet)
    requires s.SDir? && WellFormed(s) && OnCourse(o, s, f.w, goal)
    ensures OnCourse(o, s, r.w, goal)
  {
    if k == 0 then f
    else
      var g := After(o, s, f, acts, k - 1, goal);
      ApplyOnCourse(o, s, g, acts(k - 1), goal);
      Apply(o, s, g, acts(k - 1))
  }

  /** From some point on no act handles anything. */
  ghost predicate IdleFrom(o: Opts, s: Src, f: Fleet, acts: nat -> Act, k: nat, goal: DirRes)
    requires s.SDir? && WellFormed(s) && OnCourse(o, s, f.w, goal)
  {
    forall j: nat :: j >= k ==> !Effective(After(o, s, f, acts, j, goal), acts(j))
  }

  /** An endless sequence that falls at the marked places and stays put at the
      others has finitely many marked places. */
  ghost predicate FallsAt(m: nat -> (nat, nat), marked: nat -> bool) {
    forall j: nat {:trigger marked(j)} :: if marked(j) then Less(m(j + 1), m(j)) else m(j + 1) == m(j)
  }

  lemma {:induction false} NeverRises(m: nat -> (nat, nat), marked: nat -> bool, k: nat, j: nat)
    requires FallsAt(m, marked) && k <= j
    ensures m(j) == m(k) || Less(m(j), m(k))
  {
    if k < j {
      NeverRises(m, marked, k, j - 1);
      assert marked(j - 1) || !marked(j - 1);
    }
  }

  lemma {:induction false} FinitelyManyFalls(m: nat -> (nat, nat), marked: nat -> bool, k: nat) returns (idle: nat)
    requires FallsAt(m, marked)
    ensures forall j: nat :: j >= idle ==> !marked(j)
    decreases m(k).0, m(k).1
  {
    if j: nat :| j >= k && marked(j) {
      NeverRises(m, marked, k, j);
      idle := FinitelyManyFalls(m, marked, j + 1);
    } else {
      idle := k;
    }
  }

  lemma IdleEventually(o: Opts, s: Src, f: Fleet, acts: nat -> Act, goal: DirRes) returns (idle: nat)
    requires s.SDir? && WellFormed(s) && OnCourse(o, s, f.w, goal)
    ensures IdleFrom(o, s, f, acts, idle, goal)
  {
    var m := (j: nat) => Left(o, s, After(o, s, f, acts, j, goal));
    var marked := (j: nat) => Effective(After(o, s, f, acts, j, goal), acts(j));
    forall j: nat ensures if marked(j) then Less(m(j + 1), m(j)) else m(j + 1) == m(j) {
      EffectiveLowers(o, s, After(o, s, f, acts, j, goal), acts(j), goal);
    }
    idle := FinitelyManyFalls(m, marked, 0);
    forall j: nat | j >= idle ensures !Effective(After(o, s, f, acts, j, goal), acts(j)) {
      assert !marked(j);
    }
  }

  /** Every endless run handles finitely many entries. */
  lemma FinitelyManyHandled(o: Opts, s: Src, d: Dst, acts: nat -> Act)
    requires s.SDir? && d.DDir? && WellFormed(s)
    ensures OnCourse(o, s, Begin(o, s, d).w, PlainDir(o, s, d, []))
    ensures exists k :: IdleFrom(o, s, Begin(o, s, d), acts, k, PlainDir(o, s, d, []))
  {
    BeginOnCourse(o, s, d);
    var k := IdleEventually(o, s, Begin(o, s, d), acts, PlainDir(o, s, d, []));
  }

  /** Who holds what: a grant adds one path to one shard, and a shard that handles a
      path gives it up and keeps what it chose of the paths it met there. */
  lemma HoldingsChange(o: Opts, s: Src, f: Fleet, a: Act, j: nat, q: Path)
    requires s.SDir? && f.w.dst.DDir?
    ensures var g := Apply(o, s, f, a);
            && (a.Grant? && q in f.w.todo && (forall k :: k in f.mine ==> q !in f.mine[k]) ==>
                  (q in Mine(g, j) <==> q == a.p && j == a.i))
            && (Effective(f, a) ==>
                  (q in Mine(g, j) <==>
                     || (q in Mine(f, j) && !(j == a.i && q == a.p))
                     || (j == a.i && q in a.keep && q in g.w.todo && q !in f.w.todo)))
  {
  }

  /** A pending path nobody has can be granted, and then be handled. */
  lemma RunSingle(o: Opts, s: Src, f: Fleet, a: Act)
    requires s.SDir? && f.w.dst.DDir? && Apply(o, s, f, a).w.dst.DDir?
    ensures AllDirs(o, s, f, [a]) && RunFrom(o, s, f, [a]) == Apply(o, s, f, a)
  {
    assert [a][1..] == [];
  }

  lemma Advance(o: Opts, s: Src, f: Fleet, goal: DirRes) returns (acts: seq<Act>)
    requires s.SDir? && WellFormed(s) && OnCourse(o, s, f.w, goal) && f.w.todo != map[]
    ensures AllDirs(o, s, f, acts)
    ensures var g := RunFrom(o, s, f, acts); OnCourse(o, s, g.w, goal) && Less(Left(o, s, g), Left(o, s, f))
  {
    assert f.w.todo.Keys != {};
    var p :| p in f.w.todo;
    if i :| i in f.mine && p in f.mine[i] {
      EffectiveLowers(o, s, f, Act.Handle(i, p, {}), goal);
      RunSingle(o, s, f, Act.Handle(i, p, {}));
      acts := [Act.Handle(i, p, {})];
    } else {
      acts := GrantFirst(o, s, f, goal, p);
    }
  }

  lemma GrantFirst(o: Opts, s: Src, f: Fleet, goal: DirRes, p: Path) returns (acts: seq<Act>)
    requires s.SDir? && WellFormed(s) && OnCourse(o, s, f.w, goal) && p in f.w.todo
    requires forall j :: j in f.mine ==> p !in f.mine[j]
    ensures AllDirs(o, s, f, acts)
    ensures var g := RunFrom(o, s, f, acts); OnCourse(o, s, g.w, goal) && Less(Left(o, s, g), Left(o, s, f))
  {
    var f1 := Apply(o, s, f, Act.Grant(0, p));
    assert f1.w == f.w && p in Mine(f1, 0);
    EffectiveLowers(o, s, f1, Act.Handle(0, p, {}), goal);
    RunSingle(o, s, f, Act.Grant(0, p));
    RunSingle(o, s, f1, Act.Handle(0, p, {}));
    RunOn(o, s, f, [Act.Grant(0, p)], [Act.Handle(0, p, {})]);
    acts := [Act.Grant(0, p)] + [Act.Handle(0, p, {})];
  }

  /** From wherever a run stands, some continuation leaves nothing pending. */
  lemma {:induction false} CanFinish(o: Opts, s: Src, f: Fleet, goal: DirRes) returns (acts: seq<Act>)
    requires s.SDir? && WellFormed(s) && OnCourse(o, s, f.w, goal)
    ensures AllDirs(o, s, f, acts) && RunFrom(o, s, f, acts).w.todo == map[]
    decreases Left(o, s, f).0, Left(o, s, f).1
  {
    acts := [];
    if f.w.todo != map[] {
      var a := Advance(o, s, f, goal);
      var b := CanFinish(o, s, RunFrom(o, s, f, a), goal);
      RunOn(o, s, f, a, b);
      acts := a + b;
    }
  }

  lemma {:induction false} RunOn(o: Opts, s: Src, f: Fleet, a: seq<Act>, b: seq<Act>)
    requires s.SDir? && AllDirs(o, s, f, a) && AllDirs(o, s, RunFrom(o, s, f, a), b)
    ensures AllDirs(o, s, f, a + b) && RunFrom(o, s, f, a + b) == RunFrom(o, s, RunFrom(o, s, f, a), b)
    decreases |a|
  {
    if a == [] {
      assert a + b == b;
    } else {
      assert (a + b)[0] == a[0] && (a + b)[1..] == a[1..] + b;
      RunOn(o, s, Apply(o, s, f, a[0]), a[1..], b);
    }
  }

  /** So however a fleet has gone about it so far, it can end with the plain walk. */
  lemma EveryRunCanFinish(o: Opts, s: Src, d: Dst, acts: seq<Act>) returns (more: seq<Act>)
    requires s.SDir? && d.DDir? && WellFormed(s)
    ensures AllDirs(o, s, Begin(o, s, d), acts + more)
    ensures var w, r := RunFrom(o, s, Begin(o, s, d), acts + more).w, PlainDir(o, s, d, []);
            w.todo == map[] && w.dst == r.dst && w.log == r.log
  {
    var f, goal := Begin(o, s, d), PlainDir(o, s, d, []);
    BeginOnCourse(o, s, d);
    RunOnCourse(o, s, f, acts, goal);
    more := CanFinish(o, s, RunFrom(o, s, f, acts), goal);
    RunOn(o, s, f, acts, more);
    InterleavedEqualsPlain(o, s, d, acts + more);
  }

  // ---------------------------------------------------------------------
  // Ownership
  // ---------------------------------------------------------------------

  /** What the shards hold is pending, and no path is in the hands of two. */
  ghost predicate Owned(f: Fleet) {
    && (forall i, p :: i in f.mine && p in f.mine[i] ==> p in f.w.todo)
    && (forall i, j, p :: i in f.mine && j in f.mine && p in f.mine[i] && p in f.mine[j] ==> i == j)
  }

  /** A step on one name touches the pending work below that name only. */
  lemma {:induction false} OnlyBelow(o: Opts, s: Src, d: Dst, dir: Path, rest: Path, n: Name, st: St)
    requires s.SDir? && d.DDir? && WellFormed(s) && Antichain(st.todo)
    ensures SameOutside(st.todo, StepAt(o, -1, s, d, dir, rest, [n], st).1.todo, dir + rest + [n])
    decreases |rest|
  {
    if rest == [] {
      assert dir + rest == dir;
      ListOnlyBelow(o, s.entries, d.kids, dir, n, st);
    } else {
      var m := rest[0];
      var i := Find(s.entries, m);
      var slot := GetSlot(o, d.kids, m);
      assert dir + [m] + rest[1..] == dir + rest;
      if i >= 0 && dir + [m] !in st.todo && s.entries[i].node.SDir? && slot.cur.Some? && slot.cur.value.DDir? {
        OnlyBelow(o, s.entries[i].node, slot.cur.value, dir + [m], rest[1..], n, st);
      } else {
        assert Targets(dir + rest, [n]) == {dir + rest + [n]};
      }
    }
  }

  lemma ListOnlyBelow(o: Opts, es: seq<Entry>, k: Kids, dir: Path, n: Name, st: St)
    requires WellFormedIn(es) && Antichain(st.todo)
    ensures SameOutside(st.todo, ShardList(o, -1, es, [n], k, dir, 0, st).1.todo, dir + [n])
  {
    var p, i := dir + [n], Find(es, n);
    assert [n][1..] == [];
    if p in st.todo && i >= 0 {
      var st0 := st.(todo := st.todo - {p});
      ActSlotCompletes(o, -1, es[i], GetSlot(o, k, n), dir, 0, st.todo, st0);
    }
  }

  lemma OneOnlyBelow(o: Opts, s: Src, w: World, p: Path, q: Path)
    requires s.SDir? && WellFormed(s) && Good(w) && p in w.todo && p != [] && q in w.todo && q != p
    ensures q in One(o, s, w, p).todo
  {
    var dir, n := p[..|p| - 1], p[|p| - 1];
    assert dir + [n] == p && [] + dir + [n] == p;
    OnlyBelow(o, s, w.dst, [], dir, n, St(0, w.todo, w.log));
    assert !(p <= q);
    assert ModeAt(w.todo, q) == ModeAt(One(o, s, w, p).todo, q);
  }

  lemma ApplyOwned(o: Opts, s: Src, f: Fleet, a: Act)
    requires s.SDir? && WellFormed(s) && Good(f.w) && Owned(f)
    ensures Owned(Apply(o, s, f, a))
  {
    if a.Handle? && a.p in Mine(f, a.i) && a.p in f.w.todo && a.p != [] {
      var f' := Apply(o, s, f, a);
      forall j, q | j in f'.mine && q in f'.mine[j]
        ensures q in f'.w.todo && (q in f.w.todo ==> j in f.mine && q in f.mine[j])
        ensures q !in f.w.todo ==> j == a.i
      {
        if q in f.w.todo {
          assert j in f.mine && q in f.mine[j] && q != a.p;
          OneOnlyBelow(o, s, f.w, a.p, q);
        }
      }
    }
  }

  lemma {:induction false} RunOwned(o: Opts, s: Src, f: Fleet, acts: seq<Act>, goal: DirRes)
    requires s.SDir? && WellFormed(s) && OnCourse(o, s, f.w, goal) && Owned(f)
    ensures AllDirs(o, s, f, acts) && Owned(RunFrom(o, s, f, acts))
    decreases |acts|
  {
    if acts != [] {
      ApplyOnCourse(o, s, f, acts[0], goal);
      ApplyOwned(o, s, f, acts[0]);
      RunOwned(o, s, Apply(o, s, f, acts[0]), acts[1..], goal);
    }
  }

  /** In every run each path a shard holds is pending, and held by it alone. */
  lemma OneHolderEach(o: Opts, s: Src, d: Dst, acts: seq<Act>)
    requires s.SDir? && d.DDir? && WellFormed(s)
    ensures AllDirs(o, s, Begin(o, s, d), acts) && Owned(RunFrom(o, s, Begin(o, s, d), acts))
  {
    BeginOnCourse(o, s, d);
    RunOwned(o, s, Begin(o, s, d), acts, PlainDir(o, s, d, []));
  }
}
