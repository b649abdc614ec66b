/** A whole delete pass: shards granted in any order with any budgets until the
    pool is empty (agent/src/delete.c process_delete, and the coordinator side
    that turns every hand-off into a new DELETE shard). */
module DeletePass {
  import opened DeleteFanout

  predicate HasDotDot(s: Name) {
    exists k :: 0 <= k < |s| - 1 && s[k] == '.' && s[k + 1] == '.'
  }

  /** The defence-in-depth test of process_delete: an empty path, or ".."
      anywhere in it, even inside a longer name. */
  predicate Suspicious(p: Path) {
    p == [] || exists k :: 0 <= k < |p| && HasDotDot(p[k])
  }

  /** The path as the agent sees it. */
  function Text(p: Path): string {
    if p == [] then "" else if |p| == 1 then p[0] else Text(p[..|p| - 1]) + "/" + p[|p| - 1]
  }

  lemma {:induction false} DotsInText(p: Path)
    ensures HasDotDot(Text(p)) <==> exists k :: 0 <= k < |p| && HasDotDot(p[k])
  {
    if |p| > 1 {
      var front, last := p[..|p| - 1], p[|p| - 1];
      DotsInText(front);
      DotsInJoin(Text(front), last);
      assert Text(p) == Text(front) + "/" + last;
      assert forall k :: 0 <= k < |front| ==> front[k] == p[k];
    } else if |p| == 1 {
      assert Text(p) == p[0];
    }
  }

  lemma DotsInJoin(a: string, b: string)
    ensures HasDotDot(a + "/" + b) <==> HasDotDot(a) || HasDotDot(b)
  {
    var t := a + "/" + b;
    if HasDotDot(t) {
      var k :| 0 <= k < |t| - 1 && t[k] == '.' && t[k + 1] == '.';
      if k > |a| { assert b[k - |a| - 1] == '.' && b[k - |a| - 1 + 1] == '.'; } else { assert a[k] == '.' && a[k + 1] == '.'; }
    }
    if HasDotDot(a) {
      var k :| 0 <= k < |a| - 1 && a[k] == '.' && a[k + 1] == '.';
      assert t[k] == '.' && t[k + 1] == '.';
    }
    if HasDotDot(b) {
      var k :| 0 <= k < |b| - 1 && b[k] == '.' && b[k + 1] == '.';
      assert t[|a| + 1 + k] == '.' && t[|a| + 1 + k + 1] == '.';
    }
  }

  /** strstr finds ".." here. */
  predicate FoundAt(t: string, k: int) {
    0 <= k <= |t| - 2 && t[k..k + 2] == ".."
  }

  /** The test on the path's text: empty, or strstr finds "..". */
  lemma SuspiciousIff(p: Path)
    requires forall k :: 0 <= k < |p| ==> p[k] != ""
    ensures Suspicious(p) <==> Text(p) == "" || exists k :: FoundAt(Text(p), k)
  {
    DotsInText(p);
    var t := Text(p);
    if HasDotDot(t) {
      var k :| 0 <= k < |t| - 1 && t[k] == '.' && t[k + 1] == '.';
      assert FoundAt(t, k);
    }
    if k :| FoundAt(t, k) {
      assert t[k] == t[k..k + 2][0] && t[k + 1] == t[k..k + 2][1];
    }
  }

  /** The loop of process_delete over the shard's own paths. */
  function ProcessPaths(o: Options, items: seq<Item>, s: Shard): Shard {
    if items == [] then s
    else
      var s1 := if Suspicious(items[0].path) then s
                else RemoveObject(o, items[0].node, items[0].path, true, s).0;
      ProcessPaths(o, items[1..], s1)
  }

  function Refused(items: seq<Item>): seq<Item> {
    if items == [] then []
    else (if Suspicious(items[0].path) then [items[0]] else []) + Refused(items[1..])
  }

  /** Every budget hand-off becomes a shard of its own. */
  function Singles(items: seq<Item>): (r: seq<seq<Item>>)
    ensures Flatten(r) == items
  {
    if items == [] then []
    else
      var rest := Singles(items[1..]);
      assert Flatten([[items[0]]] + rest) == [items[0]] + Flatten(rest);
      [[items[0]]] + rest
  }

  datatype Pass = Pass(
    pool: seq<seq<Item>>,    // DELETE shards not yet processed
    removed: seq<Path>,
    skeleton: seq<Path>,     // deferred and streamed directories, awaiting cleanup
    refused: seq<Item>,
    failed: seq<Item>
  )

  function Start(roots: seq<seq<Item>>): Pass {
    Pass(roots, [], [], [], [])
  }

  /** The i-th shard runs with some budget; its hand-offs join the pool. */
  function Step(o: Options, st: Pass, i: nat, budget: int): Pass
    requires i < |st.pool|
  {
    var t := ProcessPaths(o, st.pool[i], NewShard(budget));
    Pass(st.pool[..i] + st.pool[i + 1..] + (Singles(t.subdirs) + t.batches),
         st.removed + t.removed,
         st.skeleton + (t.deferred + t.streamed),
         st.refused + Refused(st.pool[i]),
         st.failed + t.failed)
  }

  ghost function Pending(st: Pass): multiset<Path> {
    ObjectsOf(Flatten(st.pool))
  }

  ghost function Total(st: Pass): multiset<Path> {
    multiset(st.removed) + multiset(st.skeleton)
    + ObjectsOf(st.refused) + ObjectsOf(st.failed) + Pending(st)
  }

  lemma BothSides(a: multiset<Path>, b: multiset<Path>, c: multiset<Path>, d: multiset<Path>, x: multiset<Path>)
    requires a + b == c + d
    ensures a + (x + b) == c + (x + d)
  {
    assert a + (x + b) == x + (a + b) && c + (x + d) == x + (c + d);
  }

  lemma Reassociate(a: multiset<Path>, b: multiset<Path>, c: multiset<Path>)
    ensures (a + b) + c == a + (b + c)
  {
  }

  lemma {:induction false} ProcessConserves(o: Options, items: seq<Item>, s: Shard)
    ensures Accounted(ProcessPaths(o, items, s)) + ObjectsOf(Refused(items))
            == Accounted(s) + ObjectsOf(items)
  {
    if items != [] {
      var it := items[0];
      if Suspicious(it.path) {
        ProcessConserves(o, items[1..], s);
        ObjectsOfAppend([it], Refused(items[1..]));
        ObjectsOfOne(it);
        BothSides(Accounted(ProcessPaths(o, items[1..], s)), ObjectsOf(Refused(items[1..])),
                  Accounted(s), ObjectsOf(items[1..]), Objects(it.node, it.path));
      } else {
        var s1 := RemoveObject(o, it.node, it.path, true, s).0;
        Conservation(o, it.node, it.path, true, s);
        ProcessConserves(o, items[1..], s1);
        assert Refused(items) == Refused(items[1..]);
        Reassociate(Accounted(s), Objects(it.node, it.path), ObjectsOf(items[1..]));
      }
    }
  }

  /** Objects of the pool, and of the pool without shard i. */
  lemma PoolSplits(pool: seq<seq<Item>>, i: nat, more: seq<seq<Item>>)
    requires i < |pool|
    ensures ObjectsOf(Flatten(pool))
            == ObjectsOf(Flatten(pool[..i] + pool[i + 1..])) + ObjectsOf(pool[i])
    ensures ObjectsOf(Flatten(pool[..i] + pool[i + 1..] + more))
            == ObjectsOf(Flatten(pool[..i] + pool[i + 1..])) + ObjectsOf(Flatten(more))
  {
    var a, b := pool[..i], pool[i + 1..];
    assert pool == a + ([pool[i]] + b);
    FlattenAppend(a, [pool[i]] + b);
    assert Flatten([pool[i]] + b) == pool[i] + Flatten(b);
    FlattenAppend(a, b);
    FlattenAppend(a + b, more);
    ObjectsOfAppend(Flatten(a), pool[i] + Flatten(b));
    ObjectsOfAppend(pool[i], Flatten(b));
    ObjectsOfAppend(Flatten(a), Flatten(b));
    ObjectsOfAppend(Flatten(a + b), Flatten(more));
  }

  lemma StepPending(o: Options, st: Pass, i: nat, budget: int)
    requires i < |st.pool|
    ensures var t := ProcessPaths(o, st.pool[i], NewShard(budget));
            Pending(Step(o, st, i, budget)) + ObjectsOf(st.pool[i])
            == Pending(st) + HandedOff(t)
  {
    var t := ProcessPaths(o, st.pool[i], NewShard(budget));
    PoolSplits(st.pool, i, Singles(t.subdirs) + t.batches);
    FlattenAppend(Singles(t.subdirs), t.batches);
    ObjectsOfAppend(t.subdirs, Flatten(t.batches));
  }

  /** The bookkeeping of a step, as an identity between multisets. */
  lemma StepBalance(rem: multiset<Path>, skel: multiset<Path>, refu: multiset<Path>,
                    fail: multiset<Path>, pend: multiset<Path>, pend': multiset<Path>,
                    items: multiset<Path>, r: multiset<Path>, d: multiset<Path>, s: multiset<Path>,
                    handed: multiset<Path>, f: multiset<Path>, rf: multiset<Path>)
    requires r + d + s + handed + f + rf == items
    requires pend' + items == pend + handed
    ensures (rem + r) + (skel + d + s) + (refu + rf) + (fail + f) + pend'
            == rem + skel + refu + fail + pend
  {
    forall q: Path
      ensures ((rem + r) + (skel + d + s) + (refu + rf) + (fail + f) + pend')[q]
              == (rem + skel + refu + fail + pend)[q]
    {
      assert (r + d + s + handed + f + rf)[q] == items[q];
      assert (pend' + items)[q] == (pend + handed)[q];
    }
  }

  /** No step of a pass loses or invents an object. */
  lemma StepConserves(o: Options, st: Pass, i: nat, budget: int)
    requires i < |st.pool|
    ensures Total(Step(o, st, i, budget)) == Total(st)
  {
    var t := ProcessPaths(o, st.pool[i], NewShard(budget));
    var u := Step(o, st, i, budget);
    StepShard(o, st.pool[i], budget);
    StepPending(o, st, i, budget);
    ObjectsOfAppend(st.refused, Refused(st.pool[i]));
    ObjectsOfAppend(st.failed, t.failed);
    assert multiset(u.removed) == multiset(st.removed) + multiset(t.removed);
    assert multiset(u.skeleton)
           == multiset(st.skeleton) + multiset(t.deferred) + multiset(t.streamed);
    StepBalance(multiset(st.removed), multiset(st.skeleton), ObjectsOf(st.refused),
                ObjectsOf(st.failed), Pending(st), Pending(u), ObjectsOf(st.pool[i]),
                multiset(t.removed), multiset(t.deferred), multiset(t.streamed),
                HandedOff(t), ObjectsOf(t.failed), ObjectsOf(Refused(st.pool[i])));
  }

  lemma StepShard(o: Options, items: seq<Item>, budget: int)
    ensures var t := ProcessPaths(o, items, NewShard(budget));
            multiset(t.removed) + multiset(t.deferred) + multiset(t.streamed) + HandedOff(t)
            + ObjectsOf(t.failed) + ObjectsOf(Refused(items)) == ObjectsOf(items)
  {
    var t := ProcessPaths(o, items, NewShard(budget));
    ProcessConserves(o, items, NewShard(budget));
    assert Accounted(NewShard(budget)) == multiset{};
    assert multiset(t.removed) + multiset(t.deferred) + multiset(t.streamed) + HandedOff(t)
           + ObjectsOf(t.failed) == Accounted(t);
  }

  // ---------------------------------------------------------------------
  // Termination
  // ---------------------------------------------------------------------

  /** Objects the shard has taken out of circulation. */
  ghost function Settled(s: Shard): nat {
    |s.removed| + |s.deferred| + |s.streamed| + |ObjectsOf(s.failed)|
  }

  lemma SettledGrows(s: Shard, t: Shard)
    requires Grows(s, t)
    ensures Settled(s) <= Settled(t)
  {
    assert t.failed == s.failed + t.failed[|s.failed|..];
    ObjectsOfAppend(s.failed, t.failed[|s.failed|..]);
  }

  /** A granted path is never handed on whole: its own object always settles. */
  lemma GrantedPathSettles(o: Options, it: Item, s: Shard)
    ensures Settled(RemoveObject(o, it.node, it.path, true, s).0) > Settled(s)
  {
    if it.node.Dir? {
      if o.threshold == 0 {
        ObjectsOfAppend(s.failed, [it]);
        ObjectsOfOne(it);
      } else {
        ShardGrowsIn(o, it.node.entries, it.path, s);
        SettledGrows(s, RemoveEntries(o, it.node.entries, it.path, s).0);
      }
    }
  }

  lemma {:induction false} ProcessSettles(o: Options, items: seq<Item>, s: Shard)
    ensures Settled(ProcessPaths(o, items, s)) + |ObjectsOf(Refused(items))|
            >= Settled(s) + |items|
  {
    if items != [] {
      var it := items[0];
      if Suspicious(it.path) {
        ProcessSettles(o, items[1..], s);
        ObjectsOfAppend([it], Refused(items[1..]));
        ObjectsOfOne(it);
      } else {
        GrantedPathSettles(o, it, s);
        ProcessSettles(o, items[1..], RemoveObject(o, it.node, it.path, true, s).0);
        assert Refused(items) == Refused(items[1..]);
      }
    }
  }

  lemma AccountedSize(s: Shard)
    ensures |Accounted(s)| == Settled(s) + |HandedOff(s)|
  {
    assert Accounted(s) == multiset(s.removed) + multiset(s.deferred) + multiset(s.streamed)
                           + HandedOff(s) + ObjectsOf(s.failed);
  }

  /** Whatever the budget, a processed shard strictly lowers the number of
      objects under pending paths by at least one for each path it was granted
      (a shard without paths only leaves the pool). */
  lemma StepDecreases(o: Options, st: Pass, i: nat, budget: int)
    requires i < |st.pool|
    ensures |Pending(Step(o, st, i, budget))| + |st.pool[i]| <= |Pending(st)|
    ensures st.pool[i] == [] ==> |Step(o, st, i, budget).pool| == |st.pool| - 1
  {
    var s := NewShard(budget);
    var t := ProcessPaths(o, st.pool[i], s);
    ProcessConserves(o, st.pool[i], s);
    ProcessSettles(o, st.pool[i], s);
    assert Accounted(s) == multiset{};
    AccountedSize(t);
    assert |Accounted(t) + ObjectsOf(Refused(st.pool[i]))| == |ObjectsOf(st.pool[i])|;
    StepPending(o, st, i, budget);
    assert |Pending(Step(o, st, i, budget)) + ObjectsOf(st.pool[i])|
           == |Pending(st) + HandedOff(t)|;
  }

  /** Which shard runs next and with what budget; every schedule is allowed. */
  type Schedule = nat -> (nat, int)

  function Pick(i: nat, n: nat): (r: nat)
    requires n > 0
    ensures r < n && (i < n ==> r == i)
  {
    if i < n then i else 0
  }

  /** Runs the pass to exhaustion. That this function is well-founded is the
      termination of every pass. */
  ghost function Drain(o: Options, st: Pass, sched: Schedule, k: nat): Pass
    decreases |Pending(st)|, |st.pool|
  {
    if st.pool == [] then st
    else
      var i := Pick(sched(k).0, |st.pool|);
      StepDecreases(o, st, i, sched(k).1);
      Drain(o, Step(o, st, i, sched(k).1), sched, k + 1)
  }

  // ---------------------------------------------------------------------
  // What a finished pass leaves behind
  // ---------------------------------------------------------------------

  ghost function Dirs(n: Node, p: Path): multiset<Path>
    decreases n
  {
    match n case File => multiset{} case Dir(es) => multiset{p} + DirsIn(es, p)
  }

  ghost function DirsIn(es: seq<Entry>, p: Path): multiset<Path>
    decreases es
  {
    if es == [] then multiset{}
    else Dirs(es[0].node, p + [es[0].name]) + DirsIn(es[1..], p)
  }

  ghost function DirsOf(items: seq<Item>): multiset<Path> {
    if items == [] then multiset{}
    else Dirs(items[0].node, items[0].path) + DirsOf(items[1..])
  }

  lemma {:induction false} DirsOfAppend(a: seq<Item>, b: seq<Item>)
    ensures DirsOf(a + b) == DirsOf(a) + DirsOf(b)
  {
    if a == [] {
      assert a + b == b;
    } else {
      assert (a + b)[1..] == a[1..] + b;
      DirsOfAppend(a[1..], b);
    }
  }

  lemma {:induction false} DirsOfChildren(es: seq<Entry>, p: Path)
    ensures DirsOf(ChildItems(es, p)) == DirsIn(es, p)
  {
    if es != [] {
      assert ChildItems(es, p)[1..] == ChildItems(es[1..], p);
      DirsOfChildren(es[1..], p);
    }
  }

  /** Directories a shard still owes: its skeleton and those it handed off. */
  ghost function OwedDirs(s: Shard): multiset<Path> {
    multiset(s.deferred) + multiset(s.streamed) + (DirsOf(s.subdirs) + DirsOf(Flatten(s.batches)))
  }

  lemma {:induction false} OwedAreDirs(o: Options, n: Node, p: Path, top: bool, s: Shard)
    ensures OwedDirs(RemoveObject(o, n, p, top, s).0) <= OwedDirs(s) + Dirs(n, p)
    decreases n
  {
    var (t, d) := RemoveObject(o, n, p, top, s);
    if n.File? {
    } else if !top && s.budget <= 0 {
      OwedHandoff(s, p, n);
    } else if o.threshold == 0 {
    } else if |n.entries| > o.threshold {
      OwedStreamed(s, p, n.entries, BatchMax(o));
    } else {
      OwedAreDirsIn(o, n.entries, p, s);
      OwedOne(RemoveEntries(o, n.entries, p, s).0, p);
    }
  }

  /** A directory done inline is owed itself if deferred, and not otherwise. */
  lemma OwedOne(s: Shard, p: Path)
    ensures OwedDirs(s.(deferred := s.deferred + [p])) == OwedDirs(s) + multiset{p}
    ensures OwedDirs(RemoveOne(s, p)) == OwedDirs(s)
  {
    assert multiset(s.deferred + [p]) == multiset(s.deferred) + multiset{p};
  }

  lemma OwedHandoff(s: Shard, p: Path, n: Node)
    ensures OwedDirs(s.(subdirs := s.subdirs + [Item(p, n)])) == OwedDirs(s) + Dirs(n, p)
  {
    DirsOfAppend(s.subdirs, [Item(p, n)]);
    assert [Item(p, n)][1..] == [];
  }

  lemma OwedStreamed(s: Shard, p: Path, es: seq<Entry>, max: nat)
    requires max > 0
    ensures OwedDirs(s.(batches := s.batches + Batches(ChildItems(es, p), max),
                        streamed := s.streamed + [p])) == OwedDirs(s) + Dirs(Dir(es), p)
  {
    BatchesWhole(ChildItems(es, p), max);
    FlattenAppend(s.batches, Batches(ChildItems(es, p), max));
    DirsOfAppend(Flatten(s.batches), ChildItems(es, p));
    DirsOfChildren(es, p);
    assert multiset(s.streamed + [p]) == multiset(s.streamed) + multiset{p};
  }

  lemma {:induction false} OwedAreDirsIn(o: Options, es: seq<Entry>, p: Path, s: Shard)
    ensures OwedDirs(RemoveEntries(o, es, p, s).0) <= OwedDirs(s) + DirsIn(es, p)
    decreases es
  {
    if es != [] {
      OwedAreDirs(o, es[0].node, p + [es[0].name], false, s);
      OwedAreDirsIn(o, es[1..], p, RemoveObject(o, es[0].node, p + [es[0].name], false, s).0);
    }
  }

  lemma {:induction false} ProcessOwesDirs(o: Options, items: seq<Item>, s: Shard)
    ensures OwedDirs(ProcessPaths(o, items, s)) <= OwedDirs(s) + DirsOf(items)
  {
    if items != [] {
      if Suspicious(items[0].path) {
        ProcessOwesDirs(o, items[1..], s);
      } else {
        OwedAreDirs(o, items[0].node, items[0].path, true, s);
        ProcessOwesDirs(o, items[1..], RemoveObject(o, items[0].node, items[0].path, true, s).0);
      }
    }
  }

  /** Directories still standing or still to be visited. */
  ghost function Standing(st: Pass): multiset<Path> {
    multiset(st.skeleton) + DirsOf(Flatten(st.pool))
  }

  lemma PoolDirsSplit(pool: seq<seq<Item>>, i: nat, more: seq<seq<Item>>)
    requires i < |pool|
    ensures DirsOf(Flatten(pool))
            == DirsOf(Flatten(pool[..i] + pool[i + 1..])) + DirsOf(pool[i])
    ensures DirsOf(Flatten(pool[..i] + pool[i + 1..] + more))
            == DirsOf(Flatten(pool[..i] + pool[i + 1..])) + DirsOf(Flatten(more))
  {
    var a, b := pool[..i], pool[i + 1..];
    assert pool == a + ([pool[i]] + b);
    FlattenAppend(a, [pool[i]] + b);
    assert Flatten([pool[i]] + b) == pool[i] + Flatten(b);
    FlattenAppend(a, b);
    FlattenAppend(a + b, more);
    DirsOfAppend(Flatten(a), pool[i] + Flatten(b));
    DirsOfAppend(pool[i], Flatten(b));
    DirsOfAppend(Flatten(a), Flatten(b));
    DirsOfAppend(Flatten(a + b), Flatten(more));
  }

  lemma StandingBalance(skel: multiset<Path>, d: multiset<Path>, s: multiset<Path>,
                        owed: multiset<Path>, item: multiset<Path>, rest: multiset<Path>)
    requires d + s + owed <= item
    ensures (skel + d + s) + (rest + owed) <= skel + (rest + item)
  {
    forall q: Path
      ensures ((skel + d + s) + (rest + owed))[q] <= (skel + (rest + item))[q]
    {
      assert (d + s + owed)[q] <= item[q];
    }
  }

  lemma StepStanding(o: Options, st: Pass, i: nat, budget: int)
    requires i < |st.pool|
    ensures Standing(Step(o, st, i, budget)) <= Standing(st)
  {
    var s := NewShard(budget);
    var t := ProcessPaths(o, st.pool[i], s);
    var u := Step(o, st, i, budget);
    ProcessOwesDirs(o, st.pool[i], s);
    assert OwedDirs(s) == multiset{};
    PoolDirsSplit(st.pool, i, Singles(t.subdirs) + t.batches);
    FlattenAppend(Singles(t.subdirs), t.batches);
    DirsOfAppend(t.subdirs, Flatten(t.batches));
    assert multiset(u.skeleton) == multiset(st.skeleton) + multiset(t.deferred) + multiset(t.streamed);
    StandingBalance(multiset(st.skeleton), multiset(t.deferred), multiset(t.streamed),
                    DirsOf(t.subdirs) + DirsOf(Flatten(t.batches)), DirsOf(st.pool[i]),
                    DirsOf(Flatten(st.pool[..i] + st.pool[i + 1..])));
  }

  /** Every pass ends, and when it does each object is removed, or is a
      directory of the skeleton awaiting its cleanup rmdir, or lies under a
      refused or failed path; the skeleton holds directories only. */
  lemma {:induction false} DrainedPass(o: Options, st: Pass, sched: Schedule, k: nat)
    ensures var e := Drain(o, st, sched, k);
            && e.pool == []
            && Total(st) == multiset(e.removed) + multiset(e.skeleton)
                            + ObjectsOf(e.refused) + ObjectsOf(e.failed)
            && multiset(e.skeleton) <= Standing(st)
    decreases |Pending(st)|, |st.pool|
  {
    if st.pool == [] {
      assert Flatten(st.pool) == [];
    } else {
      var i := Pick(sched(k).0, |st.pool|);
      var st' := Step(o, st, i, sched(k).1);
      StepDecreases(o, st, i, sched(k).1);
      StepConserves(o, st, i, sched(k).1);
      StepStanding(o, st, i, sched(k).1);
      DrainedPass(o, st', sched, k + 1);
    }
  }

  // ---------------------------------------------------------------------
  // When the ".." guard loses work
  // ---------------------------------------------------------------------

  /** No path that could ever be granted as a shard path trips the ".." guard:
      the item's own path, every directory in it, and every entry of a
      directory wide enough to be streamed. */
  predicate Clean(o: Options, n: Node, p: Path)
    decreases n
  {
    !Suspicious(p) && (n.Dir? ==> CleanIn(o, n.entries, p, |n.entries| > o.threshold))
  }

  predicate CleanIn(o: Options, es: seq<Entry>, p: Path, wide: bool)
    decreases es
  {
    es != [] ==>
      && (wide || es[0].node.Dir? ==> Clean(o, es[0].node, p + [es[0].name]))
      && CleanIn(o, es[1..], p, wide)
  }

  ghost predicate AllClean(o: Options, items: seq<Item>) {
    forall k :: 0 <= k < |items| ==> Clean(o, items[k].node, items[k].path)
  }

  lemma {:induction false} WideChildrenClean(o: Options, es: seq<Entry>, p: Path)
    ensures AllClean(o, ChildItems(es, p)) <==> CleanIn(o, es, p, true)
  {
    if es != [] {
      WideChildrenClean(o, es[1..], p);
      var c := ChildItems(es, p);
      assert forall k :: 0 <= k < |es[1..]| ==> ChildItems(es[1..], p)[k] == c[k + 1];
      if CleanIn(o, es, p, true) {
        forall k | 0 <= k < |c| ensures Clean(o, c[k].node, c[k].path) {
          if k > 0 { assert c[k] == ChildItems(es[1..], p)[k - 1]; }
        }
      }
      if AllClean(o, c) {
        assert Clean(o, c[0].node, c[0].path);
        assert AllClean(o, ChildItems(es[1..], p));
      }
    }
  }

  ghost predicate HandsOffClean(o: Options, s: Shard) {
    AllClean(o, s.subdirs) && AllClean(o, Flatten(s.batches))
  }

  lemma {:induction false} CleanStaysClean(o: Options, n: Node, p: Path, top: bool, s: Shard)
    requires o.threshold > 0 && Clean(o, n, p) && HandsOffClean(o, s)
    ensures HandsOffClean(o, RemoveObject(o, n, p, top, s).0)
    decreases n
  {
    if n.Dir? && (top || s.budget > 0) {
      if |n.entries| > o.threshold {
        WideChildrenClean(o, n.entries, p);
        BatchesWhole(ChildItems(n.entries, p), BatchMax(o));
        FlattenAppend(s.batches, Batches(ChildItems(n.entries, p), BatchMax(o)));
      } else {
        CleanStaysCleanIn(o, n.entries, p, s);
      }
    }
  }

  lemma {:induction false} CleanStaysCleanIn(o: Options, es: seq<Entry>, p: Path, s: Shard)
    requires o.threshold > 0 && CleanIn(o, es, p, false) && HandsOffClean(o, s)
    ensures HandsOffClean(o, RemoveEntries(o, es, p, s).0)
    decreases es
  {
    if es != [] {
      if es[0].node.Dir? {
        CleanStaysClean(o, es[0].node, p + [es[0].name], false, s);
      }
      CleanStaysCleanIn(o, es[1..], p, RemoveObject(o, es[0].node, p + [es[0].name], false, s).0);
    }
  }

  lemma {:induction false} CleanShard(o: Options, items: seq<Item>, s: Shard)
    requires o.threshold > 0 && AllClean(o, items) && HandsOffClean(o, s)
    ensures HandsOffClean(o, ProcessPaths(o, items, s))
    ensures Refused(items) == []
  {
    if items != [] {
      assert Clean(o, items[0].node, items[0].path);
      CleanStaysClean(o, items[0].node, items[0].path, true, s);
      CleanShard(o, items[1..], RemoveObject(o, items[0].node, items[0].path, true, s).0);
    }
  }

  ghost predicate CleanPool(o: Options, pool: seq<seq<Item>>) {
    forall k :: 0 <= k < |pool| ==> AllClean(o, pool[k])
  }

  lemma AllCleanAppend(o: Options, a: seq<Item>, b: seq<Item>)
    ensures AllClean(o, a + b) <==> AllClean(o, a) && AllClean(o, b)
  {
    if AllClean(o, a + b) {
      forall k | 0 <= k < |a| ensures Clean(o, a[k].node, a[k].path) {
        assert a[k] == (a + b)[k];
      }
      forall k | 0 <= k < |b| ensures Clean(o, b[k].node, b[k].path) {
        assert b[k] == (a + b)[|a| + k];
      }
    }
  }

  lemma CleanPoolAppend(o: Options, a: seq<seq<Item>>, b: seq<seq<Item>>)
    ensures CleanPool(o, a + b) <==> CleanPool(o, a) && CleanPool(o, b)
  {
    if CleanPool(o, a + b) {
      forall k | 0 <= k < |a| ensures AllClean(o, a[k]) {
        assert a[k] == (a + b)[k];
      }
      forall k | 0 <= k < |b| ensures AllClean(o, b[k]) {
        assert b[k] == (a + b)[|a| + k];
      }
    }
  }

  lemma {:induction false} FlatClean(o: Options, pool: seq<seq<Item>>)
    ensures CleanPool(o, pool) <==> AllClean(o, Flatten(pool))
  {
    if pool != [] {
      FlatClean(o, pool[1..]);
      AllCleanAppend(o, pool[0], Flatten(pool[1..]));
      CleanPoolAppend(o, [pool[0]], pool[1..]);
      assert pool == [pool[0]] + pool[1..];
      assert CleanPool(o, [pool[0]]) <==> AllClean(o, [pool[0]][0]);
    }
  }

  lemma {:induction false} CleanPassRefusesNothing(o: Options, st: Pass, sched: Schedule, k: nat)
    requires o.threshold > 0 && CleanPool(o, st.pool) && st.refused == []
    ensures Drain(o, st, sched, k).refused == []
    decreases |Pending(st)|, |st.pool|
  {
    if st.pool != [] {
      var i := Pick(sched(k).0, |st.pool|);
      var s := NewShard(sched(k).1);
      var t := ProcessPaths(o, st.pool[i], s);
      var u := Step(o, st, i, sched(k).1);
      StepDecreases(o, st, i, sched(k).1);
      CleanShard(o, st.pool[i], s);
      FlatClean(o, Singles(t.subdirs));
      FlatClean(o, t.batches);
      assert CleanPool(o, u.pool);
      CleanPassRefusesNothing(o, u, sched, k + 1);
    }
  }

  lemma DirtyKept(o: Options, s: Shard, t: Shard)
    requires Grows(s, t) && !HandsOffClean(o, s)
    ensures !HandsOffClean(o, t)
  {
    assert t.batches == s.batches + t.batches[|s.batches|..];
    FlattenAppend(s.batches, t.batches[|s.batches|..]);
    if !AllClean(o, s.subdirs) {
      var k :| 0 <= k < |s.subdirs| && !Clean(o, s.subdirs[k].node, s.subdirs[k].path);
      assert t.subdirs[k] == s.subdirs[k];
    } else {
      var a := Flatten(s.batches);
      var k :| 0 <= k < |a| && !Clean(o, a[k].node, a[k].path);
      assert Flatten(t.batches)[k] == a[k];
    }
  }

  /** With no budget every directory is handed on, so an offending path is
      either refused now or still somewhere in a hand-off. */
  lemma {:induction false} DirtyHandedOn(o: Options, es: seq<Entry>, p: Path, s: Shard)
    requires !CleanIn(o, es, p, false) && s.budget <= 0
    ensures !HandsOffClean(o, RemoveEntries(o, es, p, s).0)
    decreases es
  {
    var e := es[0];
    var s1 := RemoveObject(o, e.node, p + [e.name], false, s).0;
    ShardGrowsIn(o, es[1..], p, s1);
    if e.node.Dir? && !Clean(o, e.node, p + [e.name]) {
      assert s1.subdirs[|s.subdirs|] == Item(p + [e.name], e.node);
      assert !HandsOffClean(o, s1);
      DirtyKept(o, s1, RemoveEntries(o, es[1..], p, s1).0);
    } else {
      DirtyHandedOn(o, es[1..], p, s1);
    }
  }

  lemma DirtyItemHandedOn(o: Options, it: Item, s: Shard)
    requires o.threshold > 0 && s.budget <= 0
    requires !Suspicious(it.path) && !Clean(o, it.node, it.path)
    ensures !HandsOffClean(o, RemoveObject(o, it.node, it.path, true, s).0)
  {
    var es := it.node.entries;
    if |es| > o.threshold {
      WideChildrenClean(o, es, it.path);
      var c := ChildItems(es, it.path);
      var k :| 0 <= k < |c| && !Clean(o, c[k].node, c[k].path);
      BatchesWhole(c, BatchMax(o));
      FlattenAppend(s.batches, Batches(c, BatchMax(o)));
      var t := RemoveObject(o, it.node, it.path, true, s).0;
      assert Flatten(t.batches)[|Flatten(s.batches)| + k] == c[k];
    } else {
      DirtyHandedOn(o, es, it.path, s);
      DirtyKept(o, RemoveEntries(o, es, it.path, s).0, RemoveObject(o, it.node, it.path, true, s).0);
    }
  }

  lemma {:induction false} NoBudgetStays(o: Options, es: seq<Entry>, p: Path, s: Shard)
    requires s.budget <= 0
    ensures RemoveEntries(o, es, p, s).0.budget == s.budget
    decreases es
  {
    if es != [] {
      NoBudgetStays(o, es[1..], p, RemoveObject(o, es[0].node, p + [es[0].name], false, s).0);
    }
  }

  lemma {:induction false} DirtyShard(o: Options, items: seq<Item>, s: Shard)
    requires o.threshold > 0 && s.budget <= 0
    requires !AllClean(o, items) || !HandsOffClean(o, s)
    ensures Refused(items) != [] || !HandsOffClean(o, ProcessPaths(o, items, s))
    decreases |items|
  {
    if items != [] && !Suspicious(items[0].path) {
      var it := items[0];
      var s1 := RemoveObject(o, it.node, it.path, true, s).0;
      if it.node.Dir? { NoBudgetStays(o, it.node.entries, it.path, s); }
      ShardGrows(o, it.node, it.path, true, s);
      if !HandsOffClean(o, s) {
        DirtyKept(o, s, s1);
      } else if !Clean(o, it.node, it.path) {
        DirtyItemHandedOn(o, it, s);
      } else {
        var k :| 0 <= k < |items| && !Clean(o, items[k].node, items[k].path);
        assert items[1..][k - 1] == items[k];
      }
      DirtyShard(o, items[1..], s1);
    }
  }

  /** A pass as a job runs it: any order of its shards, one configured budget. */
  type Order = nat -> nat

  function Granting(order: Order, c: Config): Schedule {
    (k: nat) => (order(k), BudgetOf(c))
  }

  const FirstOut: Order := (k: nat) => 0

  /** A step without budget keeps an offending path in the pool, or refuses it. */
  lemma DirtyStep(o: Options, pool: seq<seq<Item>>, budget: int)
    requires o.threshold > 0 && pool != [] && !CleanPool(o, pool) && Refused(pool[0]) == [] && budget <= 0
    ensures var t := ProcessPaths(o, pool[0], NewShard(budget));
            !CleanPool(o, pool[1..] + (Singles(t.subdirs) + t.batches))
  {
    var t := ProcessPaths(o, pool[0], NewShard(budget));
    CleanPoolAppend(o, pool[1..], Singles(t.subdirs) + t.batches);
    CleanPoolAppend(o, Singles(t.subdirs), t.batches);
    if AllClean(o, pool[0]) {
      CleanPoolAppend(o, [pool[0]], pool[1..]);
      assert pool == [pool[0]] + pool[1..];
    } else {
      FlatClean(o, Singles(t.subdirs));
      FlatClean(o, t.batches);
      DirtyShard(o, pool[0], NewShard(budget));
    }
  }

  lemma {:induction false} DirtyPassRefuses(o: Options, st: Pass, c: Config, k: nat)
    requires o.threshold > 0 && BudgetOf(c) <= 0
    requires !CleanPool(o, st.pool) || st.refused != []
    ensures Drain(o, st, Granting(FirstOut, c), k).refused != []
    decreases |Pending(st)|, |st.pool|
  {
    if st.pool != [] {
      var sched, b := Granting(FirstOut, c), BudgetOf(c);
      var u := Step(o, st, 0, b);
      assert sched(k) == (0, b);
      assert Drain(o, st, sched, k) == Drain(o, u, sched, k + 1);
      StepDecreases(o, st, 0, b);
      if st.refused == [] && Refused(st.pool[0]) == [] {
        DirtyStep(o, st.pool, b);
        assert st.pool[..0] + st.pool[1..] == st.pool[1..];
      }
      DirtyPassRefuses(o, u, c, k + 1);
    }
  }

  /** The ".." guard refuses nothing, in any order, if no path that may be granted
      contains ".."; and for a budget setting that turns negative only then. */
  lemma NothingRefusedAt(o: Options, roots: seq<seq<Item>>, c: Config)
    requires o.threshold > 0
    ensures CleanPool(o, roots) ==> forall order: Order :: Drain(o, Start(roots), Granting(order, c), 0).refused == []
    ensures c >= I63 && (forall order: Order :: Drain(o, Start(roots), Granting(order, c), 0).refused == []) ==>
              CleanPool(o, roots)
  {
    if CleanPool(o, roots) {
      forall order: Order ensures Drain(o, Start(roots), Granting(order, c), 0).refused == [] {
        CleanPassRefusesNothing(o, Start(roots), Granting(order, c), 0);
      }
    } else if c >= I63 {
      DirtyPassRefuses(o, Start(roots), c, 0);
    }
  }

  /** Exactly when the guard costs no job any of its work: whatever the budget
      setting and the order, everything below the skeleton is removed if and only
      if no path that may be granted contains "..". */
  lemma NothingRefusedIff(o: Options, roots: seq<seq<Item>>)
    requires o.threshold > 0
    ensures (forall c: Config, order: Order :: Drain(o, Start(roots), Granting(order, c), 0).refused == [])
            <==> CleanPool(o, roots)
  {
    if CleanPool(o, roots) {
      forall c: Config, order: Order ensures Drain(o, Start(roots), Granting(order, c), 0).refused == [] {
        NothingRefusedAt(o, roots, c);
      }
    } else {
      var c: Config := U64 - 1;
      NothingRefusedAt(o, roots, c);
      DirtyPassRefuses(o, Start(roots), c, 0);
    }
  }

  /** With budgets that last, an offending name below the top is not granted and
      does no harm: the condition is exact over all settings, not for each. */
  lemma LastingBudgetSpares(o: Options, order: Order, c: Config)
    requires o.threshold > 0 && 0 < c < I63
    ensures var it := Item(["d"], Dir([Entry("a..b", Dir([]))]));
            !CleanPool(o, [[it]]) && Drain(o, Start([[it]]), Granting(order, c), 0).refused == []
  {
    var inner := Dir([]);
    var it := Item(["d"], Dir([Entry("a..b", inner)]));
    var q := ["d"] + ["a..b"];
    assert HasDotDot(q[1]) by { assert q[1][1] == '.' && q[1][2] == '.'; }
    assert Suspicious(q) && !Clean(o, inner, q);
    assert !CleanIn(o, it.node.entries, ["d"], false);
    assert !AllClean(o, [[it]][0]) by { assert !Clean(o, [it][0].node, [it][0].path); }
    var b := BudgetOf(c);
    var sched := Granting(order, c);
    var s := NewShard(b);
    assert !Suspicious(it.path) by { assert it.path == ["d"]; }
    var es := it.node.entries;
    assert es[1..] == [] && it.path + [es[0].name] == q;
    var s1 := RemoveOne(s, q);
    assert RemoveEntries(o, [], q, s) == (s, false);
    assert RemoveObject(o, inner, q, false, s) == (s1, false);
    assert RemoveEntries(o, [], it.path, s1) == (s1, false);
    assert RemoveEntries(o, es, it.path, s) == (s1, false);
    var t := RemoveOne(s1, it.path);
    assert RemoveObject(o, it.node, it.path, true, s) == (t, false);
    assert [it][1..] == [] && ProcessPaths(o, [it], s) == ProcessPaths(o, [], t);
    assert Refused([it]) == [] + Refused([]);
    var u := Step(o, Start([[it]]), Pick(sched(0).0, 1), sched(0).1);
    assert u.pool == [] && u.refused == [];
  }

  /** For one, a file whose name merely contains two dots is never deleted. */
  lemma DotsInNameRefused(o: Options, sched: Schedule)
    ensures var it := Item(["a..b"], File);
            var e := Drain(o, Start([[it]]), sched, 0);
            e.removed == [] && e.refused == [it]
  {
    var it := Item(["a..b"], File);
    var st := Start([[it]]);
    assert HasDotDot(it.path[0]) by { assert it.path[0][1] == '.' && it.path[0][2] == '.'; }
    assert Suspicious(it.path);
    var i, b := Pick(sched(0).0, |st.pool|), sched(0).1;
    assert i == 0;
    assert [it][1..] == [];
    assert Refused([it]) == [it] + Refused([]);
    assert ProcessPaths(o, [it], NewShard(b)) == ProcessPaths(o, [], NewShard(b));
    var u := Step(o, st, i, b);
    assert u.pool == [] && u.removed == [] && u.refused == [it];
    assert Drain(o, u, sched, 1) == u;
  }

  lemma {:induction false} PassNeverFails(o: Options, st: Pass, sched: Schedule, k: nat)
    requires o.threshold > 0
    ensures Drain(o, st, sched, k).failed == st.failed
    decreases |Pending(st)|, |st.pool|
  {
    if st.pool != [] {
      var i := Pick(sched(k).0, |st.pool|);
      StepDecreases(o, st, i, sched(k).1);
      ShardNeverFails(o, st.pool[i], NewShard(sched(k).1));
      PassNeverFails(o, Step(o, st, i, sched(k).1), sched, k + 1);
    }
  }

  lemma {:induction false} ShardNeverFails(o: Options, items: seq<Item>, s: Shard)
    requires o.threshold > 0
    ensures ProcessPaths(o, items, s).failed == s.failed
  {
    if items != [] {
      if Suspicious(items[0].path) {
        ShardNeverFails(o, items[1..], s);
      } else {
        NothingFails(o, items[0].node, items[0].path, true, s);
        ShardNeverFails(o, items[1..], RemoveObject(o, items[0].node, items[0].path, true, s).0);
      }
    }
  }

  /** The pass as a whole: for clean orphan paths and a positive threshold,
      every schedule ends with each object removed or a directory of the
      skeleton; so every non-directory is gone. */
  lemma PassRemovesAllButSkeleton(o: Options, roots: seq<seq<Item>>, sched: Schedule)
    requires o.threshold > 0 && CleanPool(o, roots)
    ensures var e := Drain(o, Start(roots), sched, 0);
            && e.pool == []
            && ObjectsOf(Flatten(roots)) == multiset(e.removed) + multiset(e.skeleton)
            && multiset(e.skeleton) <= DirsOf(Flatten(roots))
  {
    DrainedPass(o, Start(roots), sched, 0);
    CleanPassRefusesNothing(o, Start(roots), sched, 0);
    PassNeverFails(o, Start(roots), sched, 0);
    assert Total(Start(roots)) == ObjectsOf(Flatten(roots));
    assert Standing(Start(roots)) == DirsOf(Flatten(roots));
  }
}
