/** The delete-pass executor (agent/src/delete.c): recursive removal with two
    hand-off mechanisms and upward-propagating deferred rmdirs.

    The destination tree is static while a shard runs. `RemoveObject` and
    `RemoveEntries` say what one shard does to one object; module DeleteExecutor
    holds the imperative executor, proved to compute exactly that. The lemmas
    here are about whole trees, those of DeletePass about whole passes.
 */
module DeleteFanout {

  type Name = string
  type Path = seq<Name>

  /** What `readdir` yields for a directory, in order, "." and ".." skipped. */
  datatype Node = File | Dir(entries: seq<Entry>)
  datatype Entry = Entry(name: Name, node: Node)

  /** An object together with the path it lives at. */
  datatype Item = Item(path: Path, node: Node)

  datatype Options = Options(
    threshold: nat,   // delete_split_threshold
    batch: nat        // delete_split_batch, 0 meaning the built-in default
  )

  const SPLIT_BATCH_DEFAULT: nat := 20000
  const SHARD_BUDGET_DEFAULT: nat := 250000
  const SUBDIR_SPLIT_BATCH: nat := 256

  const U64: nat := 0x1_0000_0000_0000_0000
  const I63: nat := 0x8000_0000_0000_0000

  /** delete_shard_budget as configured: an unsigned 64-bit number. */
  type Config = c: nat | c < U64

  /** The budget a shard starts with: 0 means the default, and the rest is
      narrowed to a signed number, so a huge setting turns negative. */
  function BudgetOf(c: Config): (b: int)
    ensures 0 <= b + I63 < U64 && (b < 0 <==> c >= I63)
    ensures c != 0 ==> (b - c) % U64 == 0
    ensures c == 0 ==> b == 250000
  {
    var b := if c > 0 then c else SHARD_BUDGET_DEFAULT;
    if b < I63 then b else b - U64
  }

  function BatchMax(o: Options): (r: nat)
    ensures r > 0 && (o.batch != 0 ==> r == o.batch)
  {
    if o.batch > 0 then o.batch else SPLIT_BATCH_DEFAULT
  }

  // ---------------------------------------------------------------------
  // Trees
  // ---------------------------------------------------------------------

  /** Every object of the subtree, one occurrence each. */
  ghost function Objects(n: Node, p: Path): multiset<Path>
    decreases n
  {
    multiset{p} + match n case File => multiset{} case Dir(es) => ObjectsIn(es, p)
  }

  ghost function ObjectsIn(es: seq<Entry>, p: Path): multiset<Path>
    decreases es
  {
    if es == [] then multiset{}
    else Objects(es[0].node, p + [es[0].name]) + ObjectsIn(es[1..], p)
  }

  ghost predicate WellFormed(n: Node)
    decreases n
  {
    n.Dir? ==> WellFormedIn(n.entries)
  }

  /** Names of one directory are pairwise distinct, at every level. */
  ghost predicate WellFormedIn(es: seq<Entry>)
    decreases es
  {
    es != [] ==>
      && WellFormed(es[0].node)
      && (forall k :: 0 < k < |es| ==> es[k].name != es[0].name)
      && WellFormedIn(es[1..])
  }

  ghost function ObjectsOf(items: seq<Item>): multiset<Path> {
    if items == [] then multiset{}
    else Objects(items[0].node, items[0].path) + ObjectsOf(items[1..])
  }

  function Flatten<T>(xss: seq<seq<T>>): seq<T> {
    if xss == [] then [] else xss[0] + Flatten(xss[1..])
  }

  function ChildItems(es: seq<Entry>, p: Path): (r: seq<Item>)
    ensures |r| == |es|
    ensures forall k :: 0 <= k < |es| ==> r[k] == Item(p + [es[k].name], es[k].node)
  {
    seq(|es|, k requires 0 <= k < |es| => Item(p + [es[k].name], es[k].node))
  }

  /** Full batches of `max`, then a final batch that ships even when empty. */
  function Batches<T>(xs: seq<T>, max: nat): seq<seq<T>>
    requires max > 0
    decreases |xs|
  {
    if |xs| < max then [xs] else [xs[..max]] + Batches(xs[max..], max)
  }

  /** The batches concatenate to the listing, all are full but the last, and the
      last is not. */
  lemma {:induction false} BatchesWhole<T>(xs: seq<T>, max: nat)
    requires max > 0
    ensures var bs := Batches(xs, max);
            && Flatten(bs) == xs && bs != []
            && (forall k :: 0 <= k < |bs| - 1 ==> |bs[k]| == max) && |bs[|bs| - 1]| < max
    decreases |xs|
  {
    if |xs| < max {
      assert Flatten([xs]) == xs + Flatten<T>([]);
    } else {
      BatchesWhole(xs[max..], max);
      var rest := Batches(xs[max..], max);
      assert Flatten([xs[..max]] + rest) == xs[..max] + Flatten(rest);
    }
  }

  // ---------------------------------------------------------------------
  // One shard
  // ---------------------------------------------------------------------

  /** Everything one shard accumulates while it works. */
  datatype Shard = Shard(
    budget: int,
    removed: seq<Path>,          // JR_DELETED records, in order
    subdirs: seq<Item>,          // budget hand-offs (ShardSplit.delete_subdirs)
    batches: seq<seq<Item>>,     // streamed batches (ShardSplit.DeleteRemainder)
    deferred: seq<Path>,         // ShardResult.deferred_rmdirs
    streamed: seq<Path>,         // directories streamed out
    failed: seq<Item>            // directories sent to plain unlink (threshold 0)
  )

  function NewShard(budget: int): Shard {
    Shard(budget, [], [], [], [], [], [])
  }

  function RemoveOne(s: Shard, p: Path): Shard {
    s.(removed := s.removed + [p],
       budget := if s.budget > 0 then s.budget - 1 else s.budget)
  }

  /** remove_object and rm_tree: the new shard state, and whether the caller's
      directory must defer its own rmdir. */
  function RemoveObject(o: Options, n: Node, p: Path, top: bool, s: Shard): (Shard, bool)
    decreases n
  {
    if n.File? then
      (RemoveOne(s, p), false)
    else if !top && s.budget <= 0 then
      (s.(subdirs := s.subdirs + [Item(p, n)]), true)
    else if o.threshold == 0 then
      (s.(failed := s.failed + [Item(p, n)]), false)
    else if |n.entries| > o.threshold then
      (s.(batches := s.batches + Batches(ChildItems(n.entries, p), BatchMax(o)),
          streamed := s.streamed + [p]), true)
    else
      var (s1, childDeferred) := RemoveEntries(o, n.entries, p, s);
      if childDeferred then (s1.(deferred := s1.deferred + [p]), true)
      else (RemoveOne(s1, p), false)
  }

  /** rm_dir_contents over the remaining entries of directory p. */
  function RemoveEntries(o: Options, es: seq<Entry>, p: Path, s: Shard): (Shard, bool)
    decreases es
  {
    if es == [] then (s, false)
    else
      var (s1, d1) := RemoveObject(o, es[0].node, p + [es[0].name], false, s);
      var (s2, d2) := RemoveEntries(o, es[1..], p, s1);
      (s2, d1 || d2)
  }

  // ---------------------------------------------------------------------
  // Conservation
  // ---------------------------------------------------------------------

  /** Objects this shard has accounted for, by the class they ended in. */
  ghost function Accounted(s: Shard): multiset<Path> {
    multiset(s.removed) + multiset(s.deferred) + multiset(s.streamed)
    + ObjectsOf(s.subdirs) + ObjectsOf(Flatten(s.batches)) + ObjectsOf(s.failed)
  }

  lemma {:induction false} ObjectsOfAppend(a: seq<Item>, b: seq<Item>)
    ensures ObjectsOf(a + b) == ObjectsOf(a) + ObjectsOf(b)
  {
    if a == [] {
      assert a + b == b;
    } else {
      assert (a + b)[1..] == a[1..] + b;
      ObjectsOfAppend(a[1..], b);
    }
  }

  lemma ObjectsOfOne(it: Item)
    ensures ObjectsOf([it]) == Objects(it.node, it.path)
  {
    assert [it][1..] == [];
  }

  lemma {:induction false} FlattenAppend<T>(a: seq<seq<T>>, b: seq<seq<T>>)
    ensures Flatten(a + b) == Flatten(a) + Flatten(b)
  {
    if a == [] {
      assert a + b == b;
    } else {
      assert (a + b)[1..] == a[1..] + b;
      FlattenAppend(a[1..], b);
    }
  }

  lemma {:induction false} ObjectsOfChildren(es: seq<Entry>, p: Path)
    ensures ObjectsOf(ChildItems(es, p)) == ObjectsIn(es, p)
  {
    if es != [] {
      assert ChildItems(es, p)[1..] == ChildItems(es[1..], p);
      ObjectsOfChildren(es[1..], p);
    }
  }

  lemma AccountRemoved(s: Shard, p: Path)
    ensures Accounted(RemoveOne(s, p)) == Accounted(s) + multiset{p}
  {
    var t := RemoveOne(s, p);
    assert multiset(t.removed) == multiset(s.removed) + multiset{p};
  }

  lemma AccountDeferred(s: Shard, p: Path)
    ensures Accounted(s.(deferred := s.deferred + [p])) == Accounted(s) + multiset{p}
  {
    assert multiset(s.deferred + [p]) == multiset(s.deferred) + multiset{p};
  }

  lemma AccountHandedOff(s: Shard, p: Path, n: Node)
    ensures Accounted(s.(subdirs := s.subdirs + [Item(p, n)])) == Accounted(s) + Objects(n, p)
    ensures Accounted(s.(failed := s.failed + [Item(p, n)])) == Accounted(s) + Objects(n, p)
  {
    ObjectsOfOne(Item(p, n));
    ObjectsOfAppend(s.subdirs, [Item(p, n)]);
    ObjectsOfAppend(s.failed, [Item(p, n)]);
  }

  lemma AccountStreamed(s: Shard, p: Path, es: seq<Entry>, max: nat)
    requires max > 0
    ensures Accounted(s.(batches := s.batches + Batches(ChildItems(es, p), max),
                         streamed := s.streamed + [p])) == Accounted(s) + Objects(Dir(es), p)
  {
    var kids := ChildItems(es, p);
    BatchesWhole(kids, max);
    FlattenAppend(s.batches, Batches(kids, max));
    ObjectsOfAppend(Flatten(s.batches), kids);
    ObjectsOfChildren(es, p);
    assert multiset(s.streamed + [p]) == multiset(s.streamed) + multiset{p};
  }

  /** Every object under the path ends in exactly one class: removed here,
      deferred, streamed, inside a handed-off path, or left by a failed unlink. */
  lemma {:induction false} Conservation(o: Options, n: Node, p: Path, top: bool, s: Shard)
    ensures Accounted(RemoveObject(o, n, p, top, s).0) == Accounted(s) + Objects(n, p)
    decreases n
  {
    if n.File? {
      AccountRemoved(s, p);
    } else if !top && s.budget <= 0 {
      AccountHandedOff(s, p, n);
    } else if o.threshold == 0 {
      AccountHandedOff(s, p, n);
    } else if |n.entries| > o.threshold {
      AccountStreamed(s, p, n.entries, BatchMax(o));
    } else {
      ConservationIn(o, n.entries, p, s);
      var (s1, d) := RemoveEntries(o, n.entries, p, s);
      if d {
        AccountDeferred(s1, p);
      } else {
        AccountRemoved(s1, p);
      }
      assert Objects(n, p) == multiset{p} + ObjectsIn(n.entries, p);
    }
  }

  lemma {:induction false} ConservationIn(o: Options, es: seq<Entry>, p: Path, s: Shard)
    ensures Accounted(RemoveEntries(o, es, p, s).0) == Accounted(s) + ObjectsIn(es, p)
    decreases es
  {
    if es != [] {
      Conservation(o, es[0].node, p + [es[0].name], false, s);
      ConservationIn(o, es[1..], p, RemoveObject(o, es[0].node, p + [es[0].name], false, s).0);
    }
  }

  // ---------------------------------------------------------------------
  // Paths of a subtree
  // ---------------------------------------------------------------------

  lemma {:induction false} ObjectsBelow(n: Node, p: Path, q: Path)
    requires q in Objects(n, p)
    ensures p <= q
    ensures q != p ==> n.Dir? && q in ObjectsIn(n.entries, p)
    decreases n
  {
    if q != p {
      ObjectsInBelow(n.entries, p, q);
    }
  }

  lemma {:induction false} ObjectsInBelow(es: seq<Entry>, p: Path, q: Path)
    requires q in ObjectsIn(es, p)
    ensures p < q
    ensures exists k :: 0 <= k < |es| && es[k].name == q[|p|]
    decreases es
  {
    if q in Objects(es[0].node, p + [es[0].name]) {
      ObjectsBelow(es[0].node, p + [es[0].name], q);
    } else {
      ObjectsInBelow(es[1..], p, q);
      var k :| 0 <= k < |es[1..]| && es[1..][k].name == q[|p|];
      assert es[k + 1].name == q[|p|];
    }
  }

  /** The first entry's objects and the other entries' objects never share a
      path, nor is a path of one above a path of the other. */
  lemma EntriesApart(es: seq<Entry>, p: Path, a: Path, b: Path)
    requires es != [] && WellFormedIn(es)
    requires a in Objects(es[0].node, p + [es[0].name])
    requires b in ObjectsIn(es[1..], p)
    ensures a != b && !(a <= b) && !(b <= a)
  {
    ObjectsBelow(es[0].node, p + [es[0].name], a);
    ObjectsInBelow(es[1..], p, b);
    assert a[|p|] == (p + [es[0].name])[|p|] == es[0].name;
    var k :| 0 <= k < |es[1..]| && es[1..][k].name == b[|p|];
    assert es[k + 1].name == b[|p|];
  }

  /** With distinct names a path occurs once: the classes of `Conservation`
      are therefore mutually exclusive. */
  lemma {:induction false} ObjectsUnique(n: Node, p: Path, q: Path)
    requires WellFormed(n)
    ensures Objects(n, p)[q] <= 1
    decreases n
  {
    if n.Dir? {
      ObjectsInUnique(n.entries, p, q);
      if p in ObjectsIn(n.entries, p) {
        ObjectsInBelow(n.entries, p, p);
      }
    }
  }

  lemma {:induction false} ObjectsInUnique(es: seq<Entry>, p: Path, q: Path)
    requires WellFormedIn(es)
    ensures ObjectsIn(es, p)[q] <= 1
    decreases es
  {
    if es != [] {
      ObjectsUnique(es[0].node, p + [es[0].name], q);
      ObjectsInUnique(es[1..], p, q);
      if q in Objects(es[0].node, p + [es[0].name]) && q in ObjectsIn(es[1..], p) {
        EntriesApart(es, p, q, q);
      }
    }
  }

  // ---------------------------------------------------------------------
  // Safety of rmdir
  // ---------------------------------------------------------------------

  /** The JR_DELETED records added between two states of one shard. */
  function NewlyRemoved(s: Shard, t: Shard): seq<Path>
    requires |s.removed| <= |t.removed|
  {
    t.removed[|s.removed|..]
  }

  /** Only the hand-off lists and the log grow, and only at the end. */
  predicate Grows(s: Shard, t: Shard) {
    && s.removed <= t.removed && s.subdirs <= t.subdirs && s.batches <= t.batches
    && s.deferred <= t.deferred && s.streamed <= t.streamed && s.failed <= t.failed
  }

  lemma {:induction false} ShardGrows(o: Options, n: Node, p: Path, top: bool, s: Shard)
    ensures Grows(s, RemoveObject(o, n, p, top, s).0)
    decreases n
  {
    if n.Dir? {
      ShardGrowsIn(o, n.entries, p, s);
    }
  }

  lemma {:induction false} ShardGrowsIn(o: Options, es: seq<Entry>, p: Path, s: Shard)
    ensures Grows(s, RemoveEntries(o, es, p, s).0)
    decreases es
  {
    if es != [] {
      ShardGrows(o, es[0].node, p + [es[0].name], false, s);
      ShardGrowsIn(o, es[1..], p, RemoveObject(o, es[0].node, p + [es[0].name], false, s).0);
    }
  }

  /** No deferral means nothing was handed off: every object was removed here. */
  lemma {:induction false} NotDeferredAllRemoved(o: Options, n: Node, p: Path, top: bool, s: Shard)
    requires o.threshold > 0
    requires !RemoveObject(o, n, p, top, s).1
    ensures |s.removed| <= |RemoveObject(o, n, p, top, s).0.removed|
    ensures multiset(NewlyRemoved(s, RemoveObject(o, n, p, top, s).0)) == Objects(n, p)
    decreases n
  {
    ShardGrows(o, n, p, top, s);
    var t := RemoveObject(o, n, p, top, s).0;
    if n.File? {
      assert NewlyRemoved(s, t) == [p];
    } else {
      NotDeferredAllRemovedIn(o, n.entries, p, s);
      var s1 := RemoveEntries(o, n.entries, p, s).0;
      assert NewlyRemoved(s, t) == NewlyRemoved(s, s1) + [p];
    }
  }

  lemma {:induction false} NotDeferredAllRemovedIn(o: Options, es: seq<Entry>, p: Path, s: Shard)
    requires o.threshold > 0
    requires !RemoveEntries(o, es, p, s).1
    ensures |s.removed| <= |RemoveEntries(o, es, p, s).0.removed|
    ensures multiset(NewlyRemoved(s, RemoveEntries(o, es, p, s).0)) == ObjectsIn(es, p)
    decreases es
  {
    ShardGrowsIn(o, es, p, s);
    if es == [] {
      assert NewlyRemoved(s, s) == [];
    } else {
      var q := p + [es[0].name];
      var s1 := RemoveObject(o, es[0].node, q, false, s).0;
      var s2 := RemoveEntries(o, es[1..], p, s1).0;
      NotDeferredAllRemoved(o, es[0].node, q, false, s);
      NotDeferredAllRemovedIn(o, es[1..], p, s1);
      ShardGrowsIn(o, es[1..], p, s1);
      assert NewlyRemoved(s, s2) == NewlyRemoved(s, s1) + NewlyRemoved(s1, s2);
    }
  }

  lemma {:induction false} RemovedBelow(o: Options, n: Node, p: Path, top: bool, s: Shard, q: Path)
    requires |s.removed| <= |RemoveObject(o, n, p, top, s).0.removed|
    requires q in NewlyRemoved(s, RemoveObject(o, n, p, top, s).0)
    ensures q in Objects(n, p)
    decreases n
  {
    ShardGrows(o, n, p, top, s);
    if n.Dir? && (top || s.budget > 0) && 0 < o.threshold && |n.entries| <= o.threshold && q != p {
      ShardGrowsIn(o, n.entries, p, s);
      RemovedBelowIn(o, n.entries, p, s, q);
    }
  }

  lemma {:induction false} RemovedBelowIn(o: Options, es: seq<Entry>, p: Path, s: Shard, q: Path)
    requires |s.removed| <= |RemoveEntries(o, es, p, s).0.removed|
    requires q in NewlyRemoved(s, RemoveEntries(o, es, p, s).0)
    ensures q in ObjectsIn(es, p)
    decreases es
  {
    if es != [] {
      var s1 := RemoveObject(o, es[0].node, p + [es[0].name], false, s).0;
      var s2 := RemoveEntries(o, es[1..], p, s1).0;
      ShardGrows(o, es[0].node, p + [es[0].name], false, s);
      ShardGrowsIn(o, es[1..], p, s1);
      assert NewlyRemoved(s, s2) == NewlyRemoved(s, s1) + NewlyRemoved(s1, s2);
      if q in NewlyRemoved(s, s1) {
        RemovedBelow(o, es[0].node, p + [es[0].name], false, s, q);
      } else {
        RemovedBelowIn(o, es[1..], p, s1, q);
      }
    }
  }

  /** Every removal in `log` comes after the removal of each object of `objs`
      beneath it. */
  ghost predicate PostOrder(log: seq<Path>, objs: multiset<Path>) {
    forall i, q | 0 <= i < |log| && q in objs && log[i] < q :: q in log[..i]
  }

  /** Safety: a directory is rmdir'd only after every descendant it has in the
      tree was removed by this same shard, so the rmdir never meets ENOTEMPTY. */
  lemma {:induction false} RmdirOnlyWhenEmptied(o: Options, n: Node, p: Path, top: bool, s: Shard)
    requires WellFormed(n)
    ensures |s.removed| <= |RemoveObject(o, n, p, top, s).0.removed|
    ensures PostOrder(NewlyRemoved(s, RemoveObject(o, n, p, top, s).0), Objects(n, p))
    decreases n
  {
    ShardGrows(o, n, p, top, s);
    var t := RemoveObject(o, n, p, top, s).0;
    if n.Dir? && (top || s.budget > 0) && 0 < o.threshold && |n.entries| <= o.threshold {
      var (s1, d) := RemoveEntries(o, n.entries, p, s);
      ShardGrowsIn(o, n.entries, p, s);
      RmdirOnlyWhenEmptiedIn(o, n.entries, p, s);
      var log, before := NewlyRemoved(s, t), NewlyRemoved(s, s1);
      assert log == if d then before else before + [p];
      forall x | x in before ensures p < x {
        RemovedBelowIn(o, n.entries, p, s, x);
        ObjectsInBelow(n.entries, p, x);
      }
      if !d { NotDeferredAllRemovedIn(o, n.entries, p, s); }
      PostOrderParent(before, log, p, ObjectsIn(n.entries, p), d);
    }
  }

  /** A directory removed after everything below it keeps the order. */
  lemma PostOrderParent(before: seq<Path>, log: seq<Path>, p: Path, objs: multiset<Path>, deferred: bool)
    requires PostOrder(before, objs) && log == if deferred then before else before + [p]
    requires forall x :: x in before ==> p < x
    requires !deferred ==> forall q :: q in objs ==> q in multiset(before)
    ensures PostOrder(log, multiset{p} + objs)
  {
    forall i, q | 0 <= i < |log| && q in multiset{p} + objs && log[i] < q ensures q in log[..i] {
      if i < |before| {
        assert before[i] in before && p < before[i];
        assert q != p && q in objs;
        assert log[..i] == before[..i];
      } else {
        assert log[i] == p && q in objs && q in multiset(before);
        assert log[..i] == before;
      }
    }
  }

  lemma {:induction false} RmdirOnlyWhenEmptiedIn(o: Options, es: seq<Entry>, p: Path, s: Shard)
    requires WellFormedIn(es)
    ensures |s.removed| <= |RemoveEntries(o, es, p, s).0.removed|
    ensures PostOrder(NewlyRemoved(s, RemoveEntries(o, es, p, s).0), ObjectsIn(es, p))
    decreases es
  {
    ShardGrowsIn(o, es, p, s);
    if es != [] {
      var q0 := p + [es[0].name];
      var s1 := RemoveObject(o, es[0].node, q0, false, s).0;
      var s2 := RemoveEntries(o, es[1..], p, s1).0;
      ShardGrows(o, es[0].node, q0, false, s);
      ShardGrowsIn(o, es[1..], p, s1);
      RmdirOnlyWhenEmptied(o, es[0].node, q0, false, s);
      RmdirOnlyWhenEmptiedIn(o, es[1..], p, s1);
      var a, b := NewlyRemoved(s, s1), NewlyRemoved(s1, s2);
      var log := NewlyRemoved(s, s2);
      assert log == a + b;
      forall x | x in a ensures x in Objects(es[0].node, q0) {
        RemovedBelow(o, es[0].node, q0, false, s, x);
      }
      forall x | x in b ensures x in ObjectsIn(es[1..], p) {
        RemovedBelowIn(o, es[1..], p, s1, x);
      }
      forall x, y | x in Objects(es[0].node, q0) && y in ObjectsIn(es[1..], p) ensures !(x < y) && !(y < x) {
        EntriesApart(es, p, x, y);
      }
      PostOrderSiblings(a, b, Objects(es[0].node, q0), ObjectsIn(es[1..], p));
    }
  }

  /** Two logs in order, of objects none of which lies above another's, are in
      order one after the other. */
  lemma PostOrderSiblings(a: seq<Path>, b: seq<Path>, A: multiset<Path>, B: multiset<Path>)
    requires PostOrder(a, A) && PostOrder(b, B)
    requires (forall x :: x in a ==> x in A) && (forall x :: x in b ==> x in B)
    requires forall x, y :: x in A && y in B ==> !(x < y) && !(y < x)
    ensures PostOrder(a + b, A + B)
  {
    var log := a + b;
    forall i, q | 0 <= i < |log| && q in A + B && log[i] < q ensures q in log[..i] {
      if i < |a| {
        assert a[i] in a && q in A;
        assert log[..i] == a[..i];
      } else {
        var j := i - |a|;
        assert b[j] in b && q in B && q in b[..j];
        assert log[..i] == a + b[..j];
      }
    }
  }

  // ---------------------------------------------------------------------
  // Which directories defer their rmdir
  // ---------------------------------------------------------------------

  function PathsOf(items: seq<Item>): (r: seq<Path>)
    ensures |r| == |items|
    ensures forall k :: 0 <= k < |items| ==> r[k] == items[k].path
  {
    seq(|items|, k requires 0 <= k < |items| => items[k].path)
  }

  /** Paths handed to another shard: budget hand-offs and streamed directories. */
  function Causes(s: Shard): seq<Path> {
    s.streamed + PathsOf(s.subdirs)
  }

  lemma CausesGrow(s: Shard, t: Shard, q: Path)
    requires Grows(s, t) && q in Causes(s)
    ensures q in Causes(t)
  {
    if q in s.streamed {
      assert q in t.streamed;
    } else {
      var k :| 0 <= k < |s.subdirs| && PathsOf(s.subdirs)[k] == q;
      assert PathsOf(t.subdirs)[k] == q;
    }
  }

  lemma {:induction false} DeferralHasCause(o: Options, n: Node, p: Path, top: bool, s: Shard)
    returns (h: Path)
    requires RemoveObject(o, n, p, top, s).1
    ensures h in Causes(RemoveObject(o, n, p, top, s).0) && p <= h
    decreases n
  {
    h := p;
    var t := RemoveObject(o, n, p, top, s).0;
    if !top && s.budget <= 0 {
      assert PathsOf(t.subdirs)[|s.subdirs|] == p;
    } else if |n.entries| <= o.threshold {
      h := DeferralHasCauseIn(o, n.entries, p, s);
    }
  }

  lemma {:induction false} DeferralHasCauseIn(o: Options, es: seq<Entry>, p: Path, s: Shard)
    returns (h: Path)
    requires RemoveEntries(o, es, p, s).1
    ensures h in Causes(RemoveEntries(o, es, p, s).0) && p < h
    decreases es
  {
    var q0 := p + [es[0].name];
    var (s1, d1) := RemoveObject(o, es[0].node, q0, false, s);
    if d1 {
      h := DeferralHasCause(o, es[0].node, q0, false, s);
      ShardGrowsIn(o, es[1..], p, s1);
      CausesGrow(s1, RemoveEntries(o, es[1..], p, s1).0, h);
    } else {
      h := DeferralHasCauseIn(o, es[1..], p, s1);
    }
  }

  /** Some directory beneath q went to another shard. */
  ghost predicate HasCause(t: Shard, q: Path) {
    exists h :: h in Causes(t) && q < h
  }

  ghost predicate EachDeferredHasCause(from: nat, t: Shard) {
    forall k | from <= k < |t.deferred| :: HasCause(t, t.deferred[k])
  }

  lemma EachDeferredStays(from: nat, s: Shard, t: Shard)
    requires Grows(s, t) && EachDeferredHasCause(from, s) && EachDeferredHasCause(|s.deferred|, t)
    ensures EachDeferredHasCause(from, t)
  {
    forall k | from <= k < |t.deferred| ensures HasCause(t, t.deferred[k]) {
      if k < |s.deferred| {
        var h :| h in Causes(s) && s.deferred[k] < h;
        CausesGrow(s, t, h);
        assert t.deferred[k] == s.deferred[k];
        assert h in Causes(t) && t.deferred[k] < h;
      }
    }
  }

  lemma {:induction false} DeferredHaveCauses(o: Options, n: Node, p: Path, top: bool, s: Shard)
    ensures EachDeferredHasCause(|s.deferred|, RemoveObject(o, n, p, top, s).0)
    decreases n
  {
    if n.Dir? && (top || s.budget > 0) && 0 < o.threshold && |n.entries| <= o.threshold {
      var (s1, d) := RemoveEntries(o, n.entries, p, s);
      var t := RemoveObject(o, n, p, top, s).0;
      DeferredHaveCausesIn(o, n.entries, p, s);
      if d {
        var h := DeferralHasCauseIn(o, n.entries, p, s);
        assert h in Causes(t) && t.deferred[|s1.deferred|] < h;
      }
      EachDeferredStays(|s.deferred|, s1, t);
    }
  }

  lemma {:induction false} DeferredHaveCausesIn(o: Options, es: seq<Entry>, p: Path, s: Shard)
    ensures EachDeferredHasCause(|s.deferred|, RemoveEntries(o, es, p, s).0)
    decreases es
  {
    if es != [] {
      var q0 := p + [es[0].name];
      var s1 := RemoveObject(o, es[0].node, q0, false, s).0;
      DeferredHaveCauses(o, es[0].node, q0, false, s);
      DeferredHaveCausesIn(o, es[1..], p, s1);
      ShardGrowsIn(o, es[1..], p, s1);
      EachDeferredStays(|s.deferred|, s1, RemoveEntries(o, es[1..], p, s1).0);
    }
  }

  lemma {:induction false} NothingFails(o: Options, n: Node, p: Path, top: bool, s: Shard)
    requires o.threshold > 0
    ensures RemoveObject(o, n, p, top, s).0.failed == s.failed
    decreases n
  {
    if n.Dir? {
      NothingFailsIn(o, n.entries, p, s);
    }
  }

  lemma {:induction false} NothingFailsIn(o: Options, es: seq<Entry>, p: Path, s: Shard)
    requires o.threshold > 0
    ensures RemoveEntries(o, es, p, s).0.failed == s.failed
    decreases es
  {
    if es != [] {
      NothingFails(o, es[0].node, p + [es[0].name], false, s);
      NothingFailsIn(o, es[1..], p, RemoveObject(o, es[0].node, p + [es[0].name], false, s).0);
    }
  }

  ghost function HandedOff(s: Shard): multiset<Path> {
    ObjectsOf(s.subdirs) + ObjectsOf(Flatten(s.batches))
  }

  lemma {:induction false} ItemAmongObjects(items: seq<Item>, q: Path)
    requires q in PathsOf(items)
    ensures q in ObjectsOf(items)
  {
    if items[0].path != q {
      assert PathsOf(items)[1..] == PathsOf(items[1..]);
      ItemAmongObjects(items[1..], q);
    }
  }

  /** Conservation for one granted path: four classes, each object in one. */
  lemma FreshConservation(o: Options, n: Node, p: Path, budget: int)
    requires o.threshold > 0
    ensures var t := RemoveObject(o, n, p, true, NewShard(budget)).0;
            multiset(t.removed) + multiset(t.deferred) + multiset(t.streamed) + HandedOff(t)
            == Objects(n, p)
  {
    var s := NewShard(budget);
    Conservation(o, n, p, true, s);
    NothingFails(o, n, p, true, s);
    assert Accounted(s) == multiset{};
    var t := RemoveObject(o, n, p, true, s).0;
    assert t.failed == [];
    assert multiset(t.removed) + multiset(t.deferred) + multiset(t.streamed) + HandedOff(t)
           == Accounted(t);
  }

  lemma RemovedHasNoCause(o: Options, n: Node, p: Path, budget: int, q: Path, h: Path)
    requires WellFormed(n) && o.threshold > 0 && q in Objects(n, p)
    requires q in RemoveObject(o, n, p, true, NewShard(budget)).0.removed && q < h
    ensures h !in Causes(RemoveObject(o, n, p, true, NewShard(budget)).0)
  {
    var s := NewShard(budget);
    var t := RemoveObject(o, n, p, true, s).0;
    if h in Causes(t) {
      FreshConservation(o, n, p, budget);
      RmdirOnlyWhenEmptied(o, n, p, true, s);
      assert NewlyRemoved(s, t) == t.removed;
      var i :| 0 <= i < |t.removed| && t.removed[i] == q;
      if h in t.streamed {
        assert multiset(t.streamed)[h] >= 1;
      } else {
        ItemAmongObjects(t.subdirs, h);
      }
      assert h in Objects(n, p);
      assert h in t.removed[..i];
      assert multiset(t.removed)[h] >= 1;
      ObjectsUnique(n, p, h);
      assert false;
    }
  }

  /** The deferred directories are exactly the ones kept inline (neither
      streamed nor inside a hand-off) that have a handed-off or streamed
      directory beneath them. */
  lemma DeferredIff(o: Options, n: Node, p: Path, budget: int, q: Path)
    requires WellFormed(n) && o.threshold > 0 && q in Objects(n, p)
    ensures var t := RemoveObject(o, n, p, true, NewShard(budget)).0;
            q in t.deferred <==>
            && q !in t.streamed && q !in HandedOff(t)
            && HasCause(t, q)
  {
    var t := RemoveObject(o, n, p, true, NewShard(budget)).0;
    FreshConservation(o, n, p, budget);
    ObjectsUnique(n, p, q);
    if q in t.deferred {
      DeferredHaveCauses(o, n, p, true, NewShard(budget));
      assert multiset(t.deferred)[q] >= 1;
    } else if q !in t.streamed && q !in HandedOff(t) && HasCause(t, q) {
      var h :| h in Causes(t) && q < h;
      RemovedHasNoCause(o, n, p, budget, q, h);
    }
  }

  // ---------------------------------------------------------------------
  // Work bound
  // ---------------------------------------------------------------------

  ghost function Left(s: Shard): nat {
    if s.budget > 0 then s.budget else 0
  }

  /** How deep the shard may nest inline: a directory over the threshold is
      streamed out, so nothing below it counts. */
  ghost function Inline(o: Options, n: Node): nat
    decreases n
  {
    match n case File => 0 case Dir(es) => if |es| > o.threshold then 0 else 1 + InlineIn(o, es)
  }

  ghost function InlineIn(o: Options, es: seq<Entry>): nat
    decreases es
  {
    if es == [] then 0
    else
      var a, b := Inline(o, es[0].node), InlineIn(o, es[1..]);
      if a > b then a else b
  }

  /** One path costs at most its budget, one threshold for each level of inline
      nesting, and the path itself. */
  lemma {:induction false} WorkBound(o: Options, n: Node, p: Path, top: bool, s: Shard)
    ensures var t := RemoveObject(o, n, p, top, s).0;
            && |s.removed| <= |t.removed|
            && |t.removed| - |s.removed| <= Left(s) + Inline(o, n) * o.threshold + 1
            && (Left(s) == 0 && !top ==> |t.removed| - |s.removed| <= 1)
            && Left(t) == (if Left(s) < |t.removed| - |s.removed| then 0
                           else Left(s) - (|t.removed| - |s.removed|))
    decreases n
  {
    if n.Dir? && (top || s.budget > 0) && 0 < o.threshold && |n.entries| <= o.threshold {
      WorkBoundIn(o, n.entries, p, s);
      TimesSuccessor(InlineIn(o, n.entries), o.threshold);
      InlineStep(o, n, p, top, s);
    }
  }

  lemma TimesSuccessor(h: nat, t: nat)
    ensures (1 + h) * t == h * t + t
  {
  }

  /** The directory itself is one removal more than its contents, or none. */
  lemma InlineStep(o: Options, n: Node, p: Path, top: bool, s: Shard)
    requires n.Dir? && (top || s.budget > 0) && 0 < o.threshold && |n.entries| <= o.threshold
    ensures var t := RemoveObject(o, n, p, top, s).0;
            var t1 := RemoveEntries(o, n.entries, p, s).0;
            || (t.removed == t1.removed && t.budget == t1.budget)
            || (t == RemoveOne(t1, p) && |t.removed| == |t1.removed| + 1)
  {
  }

  lemma {:induction false} WorkBoundIn(o: Options, es: seq<Entry>, p: Path, s: Shard)
    ensures var t := RemoveEntries(o, es, p, s).0;
            && |s.removed| <= |t.removed|
            && |t.removed| - |s.removed| <= Left(s) + InlineIn(o, es) * o.threshold + |es|
            && (Left(s) == 0 ==> |t.removed| - |s.removed| <= |es|)
            && Left(t) == (if Left(s) < |t.removed| - |s.removed| then 0
                           else Left(s) - (|t.removed| - |s.removed|))
    decreases es
  {
    if es != [] {
      var q0 := p + [es[0].name];
      WorkBound(o, es[0].node, q0, false, s);
      WorkBoundIn(o, es[1..], p, RemoveObject(o, es[0].node, q0, false, s).0);
      TimesMonotone(Inline(o, es[0].node), InlineIn(o, es), o.threshold);
      TimesMonotone(InlineIn(o, es[1..]), InlineIn(o, es), o.threshold);
    }
  }

  lemma TimesMonotone(a: nat, b: nat, t: nat)
    requires a <= b
    ensures a * t <= b * t
  {
  }

  // ---------------------------------------------------------------------
  // A budget that is enough
  // ---------------------------------------------------------------------

  /** No directory of the subtree has more entries than the threshold. */
  ghost predicate Narrow(o: Options, n: Node)
    decreases n
  {
    n.Dir? ==> |n.entries| <= o.threshold && NarrowIn(o, n.entries)
  }

  ghost predicate NarrowIn(o: Options, es: seq<Entry>)
    decreases es
  {
    es != [] ==> Narrow(o, es[0].node) && NarrowIn(o, es[1..])
  }

  /** A shard whose budget covers the objects of a tree of small directories removes
      all of them itself, for one unit each. */
  lemma {:induction false} EnoughBudget(o: Options, n: Node, p: Path, top: bool, s: Shard)
    requires o.threshold > 0 && Narrow(o, n) && s.budget >= |Objects(n, p)|
    ensures var (t, d) := RemoveObject(o, n, p, top, s);
            !d && t == s.(removed := t.removed, budget := s.budget - |Objects(n, p)|)
    decreases n
  {
    if n.Dir? {
      assert |Objects(n, p)| == 1 + |ObjectsIn(n.entries, p)|;
      EnoughBudgetIn(o, n.entries, p, s);
    }
  }

  lemma {:induction false} EnoughBudgetIn(o: Options, es: seq<Entry>, p: Path, s: Shard)
    requires o.threshold > 0 && NarrowIn(o, es) && s.budget >= |ObjectsIn(es, p)|
    ensures var (t, d) := RemoveEntries(o, es, p, s);
            !d && t == s.(removed := t.removed, budget := s.budget - |ObjectsIn(es, p)|)
    decreases es
  {
    if es != [] {
      var q := p + [es[0].name];
      assert |ObjectsIn(es, p)| == |Objects(es[0].node, q)| + |ObjectsIn(es[1..], p)|;
      EnoughBudget(o, es[0].node, q, false, s);
      EnoughBudgetIn(o, es[1..], p, RemoveObject(o, es[0].node, q, false, s).0);
    }
  }
}
