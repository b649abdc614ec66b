/** The executor of agent/src/delete.c as it is written: a context whose fields
    the recursive removal updates in place. Every method is proved against the
    functions of DeleteFanout and DeletePass. */
module DeleteExecutor {
  import opened DeleteFanout
  import opened DeletePass

  /** A DeleteRemainder split: names still to remove under dir; total is 0
      except on the directory's last batch. */
  datatype Frame = Frame(dir: Path, names: seq<Name>, total: nat)

  function FramePaths(f: Frame): (r: seq<Path>)
    ensures |r| == |f.names|
    ensures forall k :: 0 <= k < |r| ==> r[k] == f.dir + [f.names[k]]
  {
    seq(|f.names|, k requires 0 <= k < |f.names| => f.dir + [f.names[k]])
  }

  lemma Prepended(all: seq<seq<Item>>, done: seq<seq<Item>>, one: seq<Item>, rest: seq<seq<Item>>)
    requires all == done + ([one] + rest)
    ensures all == (done + [one]) + rest
  {
  }

  lemma AppendOne(before: seq<seq<Item>>, done: seq<seq<Item>>, one: seq<Item>)
    ensures before + done + [one] == before + (done + [one])
  {
  }

  /** The names in hand are the first of the items still to ship. */
  ghost predicate Holds(batch: seq<Name>, rest: seq<Item>, p: Path) {
    |batch| <= |rest| && forall k :: 0 <= k < |batch| ==> rest[k].path == p + [batch[k]]
  }

  /** The items are those of the entries from position `from` on. */
  ghost predicate RestOf(rest: seq<Item>, es: seq<Entry>, from: nat, p: Path) {
    from <= |es| && |rest| == |es| - from && forall k :: 0 <= k < |rest| ==> rest[k].path == p + [es[from + k].name]
  }

  lemma RestDrop(rest: seq<Item>, es: seq<Entry>, from: nat, p: Path, n: nat)
    requires RestOf(rest, es, from, p) && n <= |rest|
    ensures RestOf(rest[n..], es, from + n, p)
  {
    forall k | 0 <= k < |rest[n..]| ensures rest[n..][k].path == p + [es[from + n + k].name] {
      assert rest[n..][k] == rest[n + k];
    }
  }

  /** The frames of one streamed directory of n names: all name it, and only the
      last one says how many names there were. */
  ghost predicate Announces(frames: seq<Frame>, p: Path, n: nat) {
    && frames != [] && (forall k :: 0 <= k < |frames| ==> frames[k].dir == p)
    && (forall k :: 0 <= k < |frames| - 1 ==> frames[k].total == 0)
    && frames[|frames| - 1].total == n
  }

  /** The directories whose last batch was announced, in order: the coordinator
      takes a positive total for the end of the stream. */
  ghost function Closing(frames: seq<Frame>): seq<Path> {
    if frames == [] then []
    else Closing(frames[..|frames| - 1]) + if frames[|frames| - 1].total > 0 then [frames[|frames| - 1].dir] else []
  }

  lemma {:induction false} ClosingOne(before: seq<Frame>, frames: seq<Frame>, p: Path, n: nat)
    requires Announces(frames, p, n)
    ensures Closing(before + frames) == Closing(before) + if n > 0 then [p] else []
  {
    var most, all := frames[..|frames| - 1], before + frames;
    assert all[..|all| - 1] == before + most && all[|all| - 1] == frames[|frames| - 1];
    ClosingNone(before, most);
  }

  lemma {:induction false} ClosingNone(before: seq<Frame>, frames: seq<Frame>)
    requires forall k :: 0 <= k < |frames| ==> frames[k].total == 0
    ensures Closing(before + frames) == Closing(before)
  {
    var all := before + frames;
    if frames == [] {
      assert all == before;
    } else {
      assert all[..|all| - 1] == before + frames[..|frames| - 1] && all[|all| - 1] == frames[|frames| - 1];
      ClosingNone(before, frames[..|frames| - 1]);
    }
  }

  /** The paths of a grant that pass the guard, in order. */
  function Accepted(items: seq<Item>): seq<Path> {
    if items == [] then []
    else (if Suspicious(items[0].path) then [] else [items[0].path]) + Accepted(items[1..])
  }

  /** What is left of the items ends where the whole list does. */
  ghost predicate Midway(o: Options, dryRun: bool, items: seq<Item>, rest: seq<Item>, s0: Shard, errors0: nat,
                         s: Shard, errors: nat, would: seq<Path>)
  {
    && errors + |Refused(rest)| == errors0 + |Refused(items)| + |s.failed|
    && (if dryRun then s == s0 && would + Accepted(rest) == Accepted(items)
        else ProcessPaths(o, items, s0) == ProcessPaths(o, rest, s))
  }

  /** What one granted path changes. */
  ghost predicate OneItem(o: Options, dryRun: bool, it: Item, s: Shard, errors: nat, would: seq<Path>,
                          s': Shard, errors': nat, would': seq<Path>)
  {
    if Suspicious(it.path) then s' == s && would' == would && errors' == errors + 1
    else if dryRun then s' == s && would' == would + [it.path] && errors' == errors
    else s' == DeleteFanout.RemoveObject(o, it.node, it.path, true, s).0 && would' == would
         && errors' + |s.failed| == errors + |s'.failed|
  }

  lemma MidwayNext(o: Options, dryRun: bool, items: seq<Item>, rest: seq<Item>, s0: Shard, errors0: nat,
                   s: Shard, errors: nat, would: seq<Path>, s': Shard, errors': nat, would': seq<Path>)
    requires rest != [] && Midway(o, dryRun, items, rest, s0, errors0, s, errors, would)
    requires OneItem(o, dryRun, rest[0], s, errors, would, s', errors', would')
    ensures Midway(o, dryRun, items, rest[1..], s0, errors0, s', errors', would')
  {
    assert would + ([rest[0].path] + Accepted(rest[1..])) == (would + [rest[0].path]) + Accepted(rest[1..]);
  }

  /** Frames of directory p before its last one. */
  ghost predicate AllOpen(frames: seq<Frame>, p: Path) {
    forall k :: 0 <= k < |frames| ==> frames[k].dir == p && frames[k].total == 0
  }

  lemma Shipped(now: seq<Frame>, was: seq<Frame>, frames: seq<Frame>, f: Frame)
    requires now == (was + frames) + [f] && AllOpen(frames, f.dir)
    ensures now == was + (frames + [f]) && now[|was|..] == frames + [f]
    ensures f.total == 0 ==> AllOpen(frames + [f], f.dir)
    ensures Announces(frames + [f], f.dir, f.total)
  {
  }

  class DeleteShard {
    const o: Options
    const dryRun: bool
    var budget: int
    var deletedLog: seq<Path>          // JR_DELETED
    var wouldDeleteLog: seq<Path>      // JR_WOULD_DELETE
    var split: seq<Path>               // ctx->split[], not shipped yet
    var subdirFrames: seq<seq<Path>>   // shipped delete_subdirs frames
    var remainders: seq<Frame>         // shipped DeleteRemainder frames
    var deferred: seq<Path>
    var orphans: nat
    var errors: nat
    ghost var s: Shard

    ghost predicate Valid()
      reads this
    {
      && budget == s.budget && deletedLog == s.removed && deferred == s.deferred
      && Flatten(subdirFrames) + split == PathsOf(s.subdirs)
      && |split| < SUBDIR_SPLIT_BATCH
      && (forall k :: 0 <= k < |subdirFrames| ==> |subdirFrames[k]| <= SUBDIR_SPLIT_BATCH)
      && |remainders| == |s.batches|
      && (forall k :: 0 <= k < |remainders| ==> FramePaths(remainders[k]) == PathsOf(s.batches[k]))
    }

    /** Every streamed directory, and no other, was announced as complete. */
    ghost predicate Closed()
      reads this
    {
      Closing(remainders) == s.streamed
    }

    constructor (o: Options, config: Config, dryRun: bool)
      ensures Valid() && Closed() && this.o == o && this.dryRun == dryRun
      ensures s == NewShard(BudgetOf(config))
      ensures orphans == 0 && wouldDeleteLog == [] && errors == 0
    {
      this.o, this.dryRun := o, dryRun;
      var b := if config > 0 then config else SHARD_BUDGET_DEFAULT;
      this.budget := if b < I63 then b else b - U64; // (int64_t)
      deletedLog, wouldDeleteLog, split, subdirFrames, remainders, deferred := [], [], [], [], [], [];
      orphans, errors := 0, 0;
      s := NewShard(BudgetOf(config));
    }

    method FlushSubdirs()
      requires Flatten(subdirFrames) + split == PathsOf(s.subdirs)
      requires |split| <= SUBDIR_SPLIT_BATCH
      requires forall k :: 0 <= k < |subdirFrames| ==> |subdirFrames[k]| <= SUBDIR_SPLIT_BATCH
      modifies this`split, this`subdirFrames
      ensures split == [] && Flatten(subdirFrames) == PathsOf(s.subdirs)
      ensures forall k :: 0 <= k < |subdirFrames| ==> |subdirFrames[k]| <= SUBDIR_SPLIT_BATCH
    {
      if |split| == 0 {
        return;
      }
      FlattenAppend(subdirFrames, [split]);
      assert Flatten([split]) == split + Flatten<Path>([]);
      subdirFrames := subdirFrames + [split];
      split := [];
    }

    method QueueDeleteSubdir(p: Path, ghost n: Node)
      requires Valid()
      modifies this
      ensures Valid() && s == old(s).(subdirs := old(s).subdirs + [Item(p, n)])
      ensures orphans == old(orphans) && wouldDeleteLog == old(wouldDeleteLog)
      ensures errors == old(errors) && remainders == old(remainders)
    {
      split := split + [p];
      s := s.(subdirs := s.subdirs + [Item(p, n)]);
      assert PathsOf(s.subdirs) == PathsOf(old(s).subdirs) + [p];
      if |split| >= SUBDIR_SPLIT_BATCH {
        FlushSubdirs();
      }
    }

    /** Streams directory p out in batches; the last one always ships. */
    method StreamDeleteSplit(es: seq<Entry>, p: Path)
      requires Valid()
      modifies this`remainders, this`s
      ensures Valid()
      ensures s == old(s).(batches := old(s).batches + Batches(ChildItems(es, p), BatchMax(o)),
                           streamed := old(s).streamed + [p])
      ensures old(remainders) <= remainders && Announces(remainders[|old(remainders)|..], p, |es|)
      ensures es != [] && old(Closed()) ==> Closed()
    {
      ghost var was := remainders;
      StreamBatches(es, p);
      s := s.(streamed := s.streamed + [p]);
      ClosingOne(was, remainders[|was|..], p, |es|);
      assert was + remainders[|was|..] == remainders;
    }

    method StreamBatches(es: seq<Entry>, p: Path)
      requires Valid()
      modifies this`remainders, this`s
      ensures Valid() && s == old(s).(batches := old(s).batches + Batches(ChildItems(es, p), BatchMax(o)))
      ensures old(remainders) <= remainders && Announces(remainders[|old(remainders)|..], p, |es|)
    {
      var max := BatchMax(o);
      ghost var before, from := s.batches, 0;
      ghost var all := Batches(ChildItems(es, p), max);
      ghost var rest := ChildItems(es, p);
      ghost var done: seq<seq<Item>> := [];
      ghost var frames: seq<Frame> := [];
      var batch, total := NextBatch(es, 0, max, p, rest);
      while |batch| >= max
        invariant Valid() && s == old(s).(batches := before + done)
        invariant all == done + Batches(rest, max)
        invariant RestOf(rest, es, from, p) && total == from + |batch|
        invariant |batch| <= max && Holds(batch, rest, p) && (|batch| < max ==> |batch| == |rest|)
        invariant remainders == old(remainders) + frames
        invariant AllOpen(frames, p)
        decreases |rest|
      {
        RestDrop(rest, es, from, p, max);
        Prepended(all, done, rest[..max], Batches(rest[max..], max));
        ShipBatch(p, batch, 0, rest[..max], before, done);
        Shipped(remainders, old(remainders), frames, Frame(p, batch, 0));
        done, frames := done + [rest[..max]], frames + [Frame(p, batch, 0)];
        rest, from := rest[max..], from + max;
        batch, total := NextBatch(es, total, max, p, rest);
      }
      ShipBatch(p, batch, total, rest, before, done);
      Shipped(remainders, old(remainders), frames, Frame(p, batch, total));
    }

    method ShipBatch(p: Path, batch: seq<Name>, total: nat, ghost one: seq<Item>, ghost before: seq<seq<Item>>, ghost done: seq<seq<Item>>)
      requires Valid() && |one| == |batch| && Holds(batch, one, p) && s.batches == before + done
      modifies this`remainders, this`s
      ensures Valid() && s == old(s).(batches := before + (done + [one]))
      ensures remainders == old(remainders) + [Frame(p, batch, total)]
    {
      Ship(p, batch, total, one);
      AppendOne(before, done, one);
    }

    /** readdir until the batch is full or the directory ends. */
    method NextBatch(es: seq<Entry>, from: nat, max: nat, p: Path, ghost rest: seq<Item>) returns (batch: seq<Name>, total: nat)
      requires RestOf(rest, es, from, p) && max > 0
      ensures |batch| <= max && total == from + |batch| <= |es|
      ensures Holds(batch, rest, p) && (|batch| < max ==> |batch| == |rest|)
    {
      batch, total := [], from;
      while |batch| < max && total < |es|
        invariant |batch| <= max && total == from + |batch| <= |es|
        invariant Holds(batch, rest, p)
      {
        batch := batch + [es[total].name];
        total := total + 1;
      }
    }

    method Ship(p: Path, names: seq<Name>, total: nat, ghost items: seq<Item>)
      requires Valid() && |items| == |names|
      requires forall k :: 0 <= k < |names| ==> items[k].path == p + [names[k]]
      modifies this`remainders, this`s
      ensures Valid() && s == old(s).(batches := old(s).batches + [items])
      ensures remainders == old(remainders) + [Frame(p, names, total)]
    {
      remainders := remainders + [Frame(p, names, total)];
      s := s.(batches := s.batches + [items]);
      assert FramePaths(Frame(p, names, total)) == PathsOf(items);
    }

    /** remove_object with rm_tree inlined: returns what this shard removed
        itself, and whether the caller must defer its rmdir. */
    method RemoveObject(n: Node, p: Path, top: bool) returns (removed: nat, deferredOut: bool)
      requires Valid()
      modifies this
      ensures Valid()
      ensures (s, deferredOut) == DeleteFanout.RemoveObject(o, n, p, top, old(s))
      ensures |old(deletedLog)| + removed == |deletedLog|
      ensures orphans == old(orphans) && wouldDeleteLog == old(wouldDeleteLog)
      ensures errors + |old(s).failed| == old(errors) + |s.failed|
      ensures old(Closed()) ==> Closed()
      decreases n, 1
    {
      removed, deferredOut := 0, false;
      if n.File? {
        Record(p);
        return 1, false;
      }
      if !top && budget <= 0 {
        QueueDeleteSubdir(p, n);
        return 0, true;
      }
      if o.threshold == 0 {
        errors := errors + 1; // unlink of a directory fails
        s := s.(failed := s.failed + [Item(p, n)]);
        return 0, false;
      }
      var seen := 0; // bounded probe
      while seen <= o.threshold && seen < |n.entries|
        invariant seen <= |n.entries| && seen <= o.threshold + 1
      {
        seen := seen + 1;
      }
      if seen > o.threshold {
        StreamDeleteSplit(n.entries, p);
        return 0, true;
      }
      var childDeferred;
      removed, childDeferred := RmDirContents(n.entries, p);
      if childDeferred {
        deferred := deferred + [p];
        s := s.(deferred := s.deferred + [p]);
        return removed, true;
      }
      Record(p);
      removed := removed + 1;
    }

    method Record(p: Path)
      requires Valid()
      modifies this`deletedLog, this`budget, this`s
      ensures Valid() && s == RemoveOne(old(s), p)
      ensures |deletedLog| == |old(deletedLog)| + 1
    {
      deletedLog := deletedLog + [p];
      if budget > 0 {
        budget := budget - 1;
      }
      s := RemoveOne(s, p);
    }

    method RmDirContents(es: seq<Entry>, p: Path) returns (removed: nat, deferredOut: bool)
      requires Valid() && o.threshold > 0
      modifies this
      ensures Valid()
      ensures (s, deferredOut) == RemoveEntries(o, es, p, old(s))
      ensures |old(deletedLog)| + removed == |deletedLog|
      ensures orphans == old(orphans) && wouldDeleteLog == old(wouldDeleteLog)
      ensures errors + |old(s).failed| == old(errors) + |s.failed|
      ensures old(Closed()) ==> Closed()
      decreases es, 0
    {
      removed, deferredOut := 0, false;
      var i := 0;
      while i < |es|
        invariant 0 <= i <= |es| && Valid()
        invariant RemoveEntries(o, es, p, old(s)).0 == RemoveEntries(o, es[i..], p, s).0
        invariant RemoveEntries(o, es, p, old(s)).1 == (deferredOut || RemoveEntries(o, es[i..], p, s).1)
        invariant |old(deletedLog)| + removed == |deletedLog|
        invariant orphans == old(orphans) && wouldDeleteLog == old(wouldDeleteLog)
        invariant errors + |old(s).failed| == old(errors) + |s.failed|
        invariant old(Closed()) ==> Closed()
      {
        assert es[i..][1..] == es[i + 1..];
        var r, d := RemoveObject(es[i].node, p + [es[i].name], false);
        removed, deferredOut := removed + r, deferredOut || d;
        i := i + 1;
      }
    }

    /** The journal matches the mode the shard runs in. */
    ghost predicate Tallied()
      reads this
    {
      if dryRun then orphans == |wouldDeleteLog| else orphans == |deletedLog| && wouldDeleteLog == []
    }

    ghost predicate Ahead(items: seq<Item>, rest: seq<Item>, s0: Shard, errors0: nat)
      reads this
    {
      Midway(o, dryRun, items, rest, s0, errors0, s, errors, wouldDeleteLog)
    }

    /** process_delete: the shard's own paths, then the remaining hand-offs. */
    method ProcessDelete(items: seq<Item>)
      requires Valid() && Closed() && s == NewShard(budget) && orphans == 0 && wouldDeleteLog == []
      modifies this
      ensures Valid() && Closed() && split == []
      ensures errors == old(errors) + |Refused(items)| + |s.failed|
      ensures !dryRun ==> s == ProcessPaths(o, items, old(s))
      ensures !dryRun ==> orphans == |deletedLog| && wouldDeleteLog == []
      ensures dryRun ==> s == old(s) && deletedLog == []
      ensures dryRun ==> orphans == |wouldDeleteLog| && wouldDeleteLog == Accepted(items)
    {
      DeleteItems(items);
      FlushSubdirs();
    }

    method DeleteItems(items: seq<Item>)
      requires Valid() && Closed() && s == NewShard(budget) && orphans == 0 && wouldDeleteLog == []
      modifies this
      ensures Valid() && Closed() && Tallied() && Ahead(items, [], old(s), old(errors))
    {
      var i := 0;
      assert items[0..] == items;
      while i < |items|
        invariant 0 <= i <= |items| && Valid() && Closed() && Tallied()
        invariant Ahead(items, items[i..], old(s), old(errors))
      {
        DeleteItem(items[i], items, items[i..], old(s), old(errors));
        assert items[i..][1..] == items[i + 1..];
        i := i + 1;
      }
      assert items[i..] == [];
    }

    method DeleteItem(it: Item, ghost items: seq<Item>, ghost rest: seq<Item>, ghost s0: Shard, ghost errors0: nat)
      requires Valid() && Closed() && Tallied() && rest != [] && rest[0] == it && Ahead(items, rest, s0, errors0)
      modifies this
      ensures Valid() && Closed() && Tallied() && Ahead(items, rest[1..], s0, errors0)
    {
      ghost var s1, errors1, log1 := s, errors, wouldDeleteLog;
      DeletePath(it);
      MidwayNext(o, dryRun, items, rest, s0, errors0, s1, errors1, log1, s, errors, wouldDeleteLog);
    }

    /** One path of the batch. */
    method DeletePath(it: Item)
      requires Valid() && Closed() && Tallied()
      modifies this
      ensures Valid() && Closed() && Tallied()
      ensures OneItem(o, dryRun, it, old(s), old(errors), old(wouldDeleteLog), s, errors, wouldDeleteLog)
    {
      if Suspicious(it.path) {
        errors := errors + 1;
      } else if dryRun {
        wouldDeleteLog := wouldDeleteLog + [it.path];
        orphans := orphans + 1;
      } else {
        var r, _ := RemoveObject(it.node, it.path, true);
        orphans := orphans + r;
      }
    }
  }
}
