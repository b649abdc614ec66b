/** The coordinator's journal writer (coordinator/internal/journal/journal.go):
    batches are appended to per-pass segment files that roll over by size; Flush
    is the fsync barrier behind every JournalAck. */
module JournalWriter {

  const SEGMENT_MAX_BYTES: nat := 0x2000_0000

  datatype Batch = Batch(job: nat, pass: nat, seq_: nat, bytes: nat)
  datatype Key = Key(job: nat, pass: nat)

  /** A segment file: what was written to it, and how much of that is synced. */
  datatype File = File(batches: seq<Batch>, synced: nat)

  /** An open segment: which one, and how large the writer takes it to be. */
  datatype Segment = Segment(index: nat, size: nat)

  /** The segment files of each pass, by number. */
  type Disk = map<Key, seq<File>>
  type Segments = map<Key, Segment>

  function Files(disk: Disk, k: Key): seq<File> {
    if k in disk then disk[k] else []
  }

  /** A file's length: every batch has a four-byte header. */
  function Size(batches: seq<Batch>): nat {
    if batches == [] then 0 else Size(batches[..|batches| - 1]) + batches[|batches| - 1].bytes + 4
  }

  /** The records of one pass, in the order a reader of the segments sees them. */
  function Joined(fs: seq<File>): seq<Batch> {
    if fs == [] then [] else fs[0].batches + Joined(fs[1..])
  }

  predicate Clean(f: File) { f.synced == |f.batches| }

  ghost predicate Shape(disk: Disk, segs: Segments) {
    && (forall k :: k in segs ==> k in disk && segs[k].index < |disk[k]| && segs[k].size == Size(disk[k][segs[k].index].batches))
    && (forall k, i :: k in disk && 0 <= i < |disk[k]| ==> disk[k][i].synced <= |disk[k][i].batches|)
  }

  ghost predicate IsOpen(segs: Segments, k: Key, i: int) {
    k in segs && segs[k].index == i
  }

  /** Every segment but the open ones is synced. */
  ghost predicate Closed(disk: Disk, segs: Segments) {
    forall k, i :: k in disk && 0 <= i < |disk[k]| && !IsOpen(segs, k, i) ==> Clean(disk[k][i])
  }

  ghost predicate SyncedOpen(disk: Disk, segs: Segments, k: Key) {
    k in segs && k in disk && segs[k].index < |disk[k]| ==> Clean(disk[k][segs[k].index])
  }

  // ---------------------------------------------------------------------
  // Records
  // ---------------------------------------------------------------------

  lemma {:induction false} JoinedSplit(a: seq<File>, b: seq<File>)
    ensures Joined(a + b) == Joined(a) + Joined(b)
  {
    if a == [] {
      assert a + b == b;
    } else {
      assert (a + b)[0] == a[0] && (a + b)[1..] == a[1..] + b;
      JoinedSplit(a[1..], b);
    }
  }

  lemma JoinedOne(f: File)
    ensures Joined([f]) == f.batches
  {
    assert Joined([f]) == f.batches + Joined([f][1..]);
  }

  /** Where a batch written to segment i comes to stand. */
  lemma JoinedWrite(fs: seq<File>, i: nat, f: File, b: Batch)
    requires i < |fs| && f.batches == fs[i].batches + [b]
    ensures Joined(fs[i := f]) == Joined(fs[..i + 1]) + [b] + Joined(fs[i + 1..])
  {
    var x, y := fs[..i], fs[i + 1..];
    assert fs[i := f] == x + ([f] + y) && fs[..i + 1] == x + [fs[i]];
    JoinedSplit(x, [f] + y);
    JoinedSplit([f], y);
    JoinedSplit(x, [fs[i]]);
    JoinedOne(f);
    JoinedOne(fs[i]);
    Regroup(Joined(x), fs[i].batches, [b], Joined(y));
  }

  lemma Regroup(a: seq<Batch>, b: seq<Batch>, c: seq<Batch>, d: seq<Batch>)
    ensures a + ((b + c) + d) == (a + b) + c + d
  {
  }

  lemma {:induction false} JoinedSame(fs: seq<File>, gs: seq<File>)
    requires |fs| == |gs| && forall i :: 0 <= i < |fs| ==> fs[i].batches == gs[i].batches
    ensures Joined(fs) == Joined(gs)
  {
    if fs != [] { JoinedSame(fs[1..], gs[1..]); }
  }

  /** The batch stands last if and only if whatever follows the open segment is
      nothing but copies of it. */
  lemma {:induction false} LastIff(x: seq<Batch>, b: Batch, y: seq<Batch>)
    ensures x + [b] + y == (x + y) + [b] <==> forall i :: 0 <= i < |y| ==> y[i] == b
  {
    var l, r := x + [b] + y, (x + y) + [b];
    if l == r {
      forall i | 0 <= i < |y| ensures y[i] == b {
        AllSame(x, b, y, i);
      }
    }
    if forall i :: 0 <= i < |y| ==> y[i] == b {
      forall k | 0 <= k < |l| ensures l[k] == r[k] {
        if k >= |x| { assert r[k] == b && l[k] == b; }
      }
    }
  }

  lemma {:induction false} AllSame(x: seq<Batch>, b: Batch, y: seq<Batch>, i: nat)
    requires x + [b] + y == (x + y) + [b] && i < |y|
    ensures y[i] == b
  {
    var l, r := x + [b] + y, (x + y) + [b];
    assert l[|x| + i] == r[|x| + i] && r[|x| + i] == y[i];
    if i > 0 {
      AllSame(x, b, y, i - 1);
      assert l[|x| + i] == y[i - 1];
    }
  }

  // ---------------------------------------------------------------------
  // The writer
  // ---------------------------------------------------------------------

  ghost predicate Elsewhere(disk: Disk, disk': Disk, k: Key) {
    forall j :: j != k ==> Files(disk', j) == Files(disk, j)
  }

  /** The segment after the open one, created unless a file of that number is
      already there: then it is continued. */
  function NextIndex(segs: Segments, k: Key): nat {
    if k in segs then segs[k].index + 1 else 0
  }

  function WithFile(disk: Disk, k: Key, next: nat): Disk {
    if next < |Files(disk, k)| then disk else disk[k := Files(disk, k) + [File([], 0)]]
  }

  lemma OpenedShape(disk: Disk, segs: Segments, k: Key)
    requires Shape(disk, segs)
    ensures var next := NextIndex(segs, k);
            var disk' := WithFile(disk, k, next);
            && next < |Files(disk', k)|
            && Shape(disk', segs[k := Segment(next, Size(Files(disk', k)[next].batches))])
  {
    var next := NextIndex(segs, k);
    var disk' := WithFile(disk, k, next);
    assert forall j, i :: j in disk && 0 <= i < |disk[j]| ==> j in disk' && i < |disk'[j]| && disk'[j][i] == disk[j][i];
  }

  /** A segment left behind unsynced stays so. */
  lemma OpenedUnsynced(disk: Disk, segs: Segments, k: Key, size: nat)
    requires Shape(disk, segs) && k in segs && !SyncedOpen(disk, segs, k)
    ensures !Closed(WithFile(disk, k, NextIndex(segs, k)), segs[k := Segment(NextIndex(segs, k), size)])
  {
    var disk', segs' := WithFile(disk, k, NextIndex(segs, k)), segs[k := Segment(NextIndex(segs, k), size)];
    var i := segs[k].index;
    assert disk'[k][i] == disk[k][i] && !Clean(disk'[k][i]) && !IsOpen(segs', k, i);
  }

  lemma OpenedClosed(disk: Disk, segs: Segments, k: Key, size: nat)
    requires Shape(disk, segs) && Closed(disk, segs) && SyncedOpen(disk, segs, k)
    ensures Closed(WithFile(disk, k, NextIndex(segs, k)), segs[k := Segment(NextIndex(segs, k), size)])
  {
    var next := NextIndex(segs, k);
    var disk', segs' := WithFile(disk, k, next), segs[k := Segment(next, size)];
    forall j, i | j in disk' && 0 <= i < |disk'[j]| && !IsOpen(segs', j, i) ensures Clean(disk'[j][i]) {
      if i < |Files(disk, j)| {
        assert disk'[j][i] == disk[j][i];
        if IsOpen(segs, j, i) { assert j == k; }
      }
    }
  }

  function At(fs: seq<File>, j: int): seq<Batch> {
    if 0 <= j < |fs| then fs[j].batches else []
  }

  /** gs holds what fs holds, with files up to number i. */
  ghost predicate Kept(fs: seq<File>, gs: seq<File>, i: nat) {
    && |gs| == (if i < |fs| then |fs| else i + 1)
    && forall j :: 0 <= j < |gs| ==> At(gs, j) == At(fs, j)
  }

  /** gs is fs with b at the end of segment i, and no file more than needed. */
  ghost predicate Grown(fs: seq<File>, gs: seq<File>, i: nat, b: Batch) {
    && |gs| == (if i < |fs| then |fs| else i + 1)
    && forall j :: 0 <= j < |gs| ==> At(gs, j) == if j == i then At(fs, j) + [b] else At(fs, j)
  }

  lemma KeptGrown(fs: seq<File>, gs: seq<File>, hs: seq<File>, i: nat, b: Batch)
    requires Kept(fs, gs, i) && Grown(gs, hs, i, b)
    ensures Grown(fs, hs, i, b)
  {
  }

  /** The files fs, with empty ones added up to number i. */
  ghost function Padded(fs: seq<File>, i: nat): seq<File> {
    if i < |fs| then fs else fs + [File([], 0)]
  }

  lemma PaddedLog(fs: seq<File>, i: nat)
    requires i <= |fs|
    ensures Joined(Padded(fs, i)[..i + 1]) == Joined(Upto(fs, i)) && Joined(Padded(fs, i)[i + 1..]) == Joined(Beyond(fs, i))
  {
    if i == |fs| {
      JoinedSplit(fs, [File([], 0)]);
      JoinedOne(File([], 0));
      assert Padded(fs, i)[..i + 1] == Padded(fs, i) && Padded(fs, i)[i + 1..] == [];
    }
  }

  /** Where the batch comes to stand among the records. */
  lemma GrownLog(fs: seq<File>, gs: seq<File>, i: nat, b: Batch)
    requires Grown(fs, gs, i, b) && i <= |fs|
    ensures Joined(gs) == Joined(Upto(fs, i)) + [b] + Joined(Beyond(fs, i))
  {
    var ps := Padded(fs, i);
    PaddedLog(fs, i);
    assert forall j :: 0 <= j < |gs| ==> gs[j].batches == At(gs, j) && ps[j].batches == At(fs, j);
    var f := File(ps[i].batches + [b], 0);
    JoinedWrite(ps, i, f, b);
    JoinedSame(gs, ps[i := f]);
  }

  /** Every file of every pass holds the same batches. */
  ghost predicate SameRecords(disk: Disk, disk': Disk) {
    forall k :: SameFiles(Files(disk, k), Files(disk', k))
  }

  ghost predicate SameFiles(fs: seq<File>, gs: seq<File>) {
    |fs| == |gs| && forall j :: 0 <= j < |fs| ==> fs[j].batches == gs[j].batches
  }

  lemma SameTwice(d0: Disk, d1: Disk, d2: Disk)
    requires SameRecords(d0, d1) && SameRecords(d1, d2)
    ensures SameRecords(d0, d2)
  {
    forall k ensures SameFiles(Files(d0, k), Files(d2, k)) {
      assert SameFiles(Files(d0, k), Files(d1, k)) && SameFiles(Files(d1, k), Files(d2, k));
    }
  }

  lemma SameKept(fs: seq<File>, gs: seq<File>, hs: seq<File>, i: nat)
    requires SameFiles(fs, gs) && Kept(gs, hs, i)
    ensures Kept(fs, hs, i)
  {
  }

  lemma OpenedKept(disk: Disk, k: Key, next: nat)
    requires next <= |Files(disk, k)|
    ensures Elsewhere(disk, WithFile(disk, k, next), k)
    ensures Kept(Files(disk, k), Files(WithFile(disk, k, next), k), next)
  {
  }

  class Writer {
    var segs: Segments
    var disk: Disk

    ghost predicate Valid()
      reads this
    {
      Shape(disk, segs)
    }

    ghost function Log(k: Key): seq<Batch>
      reads this
    {
      Joined(Files(disk, k))
    }

    /** Rolled-over segments are synced: true as long as no sync at a rollover
        failed, an error the writer does not look at. */
    ghost predicate ClosedSynced()
      reads this
    {
      Closed(disk, segs)
    }

    /** The open segment is due for a rollover. */
    predicate Full(k: Key)
      reads this
    {
      k in segs && segs[k].size >= SEGMENT_MAX_BYTES
    }

    ghost predicate OpenSynced(k: Key)
      reads this
    {
      SyncedOpen(disk, segs, k)
    }

    ghost predicate AllSynced()
      reads this
    {
      forall k, i :: k in disk && 0 <= i < |disk[k]| ==> Clean(disk[k][i])
    }

    constructor ()
      ensures Valid() && ClosedSynced() && segs == map[] && disk == map[]
    {
      segs, disk := map[], map[];
    }

    /** The coordinator restarts: the files stay, the open segments are forgotten. */
    method Restart()
      requires Valid()
      modifies this`segs
      ensures Valid() && segs == map[]
    {
      segs := map[];
    }

    /** The segment the next batch of a pass goes to. */
    function Target(k: Key): nat
      reads this
    {
      if k in segs && !Full(k) then segs[k].index else NextIndex(segs, k)
    }

    /** A rollover at which the sync fails with batches not yet synced. */
    ghost predicate LosesSync(k: Key, rollSync: bool)
      reads this
    {
      Full(k) && !rollSync && !OpenSynced(k)
    }

    /** Nothing about the other passes changed on disk. */
    twostate predicate Others(k: Key)
      reads this
    {
      Elsewhere(old(disk), disk, k)
    }

    /** The first half of Append: the segment the batch goes to is open; rollSync
        is the outcome of the sync at a rollover. */
    method Ready(k: Key, rollSync: bool)
      requires Valid()
      modifies this
      ensures Valid() && k in segs && segs[k].index == old(Target(k))
      ensures Others(k) && Kept(old(Files(disk, k)), Files(disk, k), segs[k].index)
      ensures old(ClosedSynced()) && !old(LosesSync(k, rollSync)) ==> ClosedSynced()
      ensures old(LosesSync(k, rollSync)) ==> !ClosedSynced()
    {
      if k in segs && !Full(k) { return; }
      ghost var fs := Files(disk, k);
      if k in segs && rollSync {
        SyncOne(k);
      }
      ghost var gs := Files(disk, k);
      Open(k);
      SameKept(fs, gs, Files(disk, k), segs[k].index);
    }

    /** Append without write errors: the batch goes to the end of one segment,
        and no other file changes. */
    method Append(b: Batch, rollSync: bool)
      requires Valid()
      modifies this
      ensures var k := Key(b.job, b.pass);
              && Valid() && k in segs && segs[k].index == old(Target(k)) <= |old(Files(disk, k))| && segs[k].size >= b.bytes + 4
              && Others(k) && Grown(old(Files(disk, k)), Files(disk, k), old(Target(k)), b)
              && !OpenSynced(k)
              && (old(ClosedSynced()) && !old(LosesSync(k, rollSync)) ==> ClosedSynced())
              && (old(LosesSync(k, rollSync)) ==> !ClosedSynced())
    {
      var k := Key(b.job, b.pass);
      ghost var fs := Files(disk, k);
      Ready(k, rollSync);
      ghost var gs := Files(disk, k);
      Write(k, b);
      KeptGrown(fs, gs, Files(disk, k), segs[k].index, b);
    }

    method SyncOne(k: Key)
      requires Valid() && k in segs
      modifies this`disk
      ensures Valid() && Others(k) && SameRecords(old(disk), disk)
      ensures SameFiles(old(Files(disk, k)), Files(disk, k))
      ensures ClosedSynced() <==> old(ClosedSynced())
      ensures OpenSynced(k) && forall j :: j != k && old(OpenSynced(j)) ==> OpenSynced(j)
    {
      var fs, i := disk[k], segs[k].index;
      var disk' := disk[k := fs[i := File(fs[i].batches, |fs[i].batches|)]];
      SyncedRest(disk, disk', segs, k);
      SyncedRecords(disk, disk', segs, k);
      disk := disk';
    }

    /** Opens the next segment of a pass, with O_APPEND. */
    method Open(k: Key)
      requires Valid()
      modifies this
      ensures Valid() && k in segs && segs == old(segs)[k := Segment(old(NextIndex(segs, k)), segs[k].size)]
      ensures Others(k) && Kept(old(Files(disk, k)), Files(disk, k), segs[k].index)
      ensures old(ClosedSynced()) && old(OpenSynced(k)) ==> ClosedSynced()
      ensures !old(OpenSynced(k)) ==> !ClosedSynced()
    {
      ghost var disk0, segs0 := disk, segs;
      var next := NextIndex(segs, k);
      OpenedShape(disk0, segs0, k);
      disk := WithFile(disk, k, next);
      segs := segs[k := Segment(next, Size(Files(disk, k)[next].batches))];
      OpenedKept(disk0, k, next);
      if !SyncedOpen(disk0, segs0, k) {
        OpenedUnsynced(disk0, segs0, k, segs[k].size);
      } else if Closed(disk0, segs0) {
        OpenedClosed(disk0, segs0, k, segs[k].size);
      }
    }

    /** Writes the batch at the end of the open segment. */
    method Write(k: Key, b: Batch)
      requires Valid() && k in segs
      modifies this
      ensures Valid() && segs == old(segs)[k := Segment(old(segs)[k].index, old(segs)[k].size + b.bytes + 4)]
      ensures Others(k) && Grown(old(Files(disk, k)), Files(disk, k), segs[k].index, b)
      ensures ClosedSynced() <==> old(ClosedSynced())
      ensures !OpenSynced(k)
    {
      var fs, i := disk[k], segs[k].index;
      var fs' := fs[i := File(fs[i].batches + [b], fs[i].synced)];
      var disk', segs' := disk[k := fs'], segs[k := Segment(i, segs[k].size + b.bytes + 4)];
      Wrote(disk, segs, k, b, fs', disk', segs');
      disk, segs := disk', segs';
    }

    /** Flush: fsyncs every open segment; good says which syncs succeed. Without
        an error everything is synced exactly if the closed segments were. */
    method Flush(good: Key -> bool) returns (err: bool)
      requires Valid()
      modifies this`disk
      ensures Valid() && SameRecords(old(disk), disk)
      ensures err <==> exists k :: k in segs && !good(k)
      ensures !err ==> (AllSynced() <==> old(ClosedSynced()))
      ensures old(ClosedSynced()) <==> ClosedSynced()
    {
      var left := SyncAll(good);
      err := left != {};
      if !err { AllFromParts(); }
    }

    /** The loop of Flush: what could not be synced. */
    method SyncAll(good: Key -> bool) returns (left: set<Key>)
      requires Valid()
      modifies this`disk
      ensures Valid() && SameRecords(old(disk), disk)
      ensures forall k :: k in left <==> k in segs && !good(k)
      ensures forall k :: k in segs && k !in left ==> OpenSynced(k)
      ensures old(ClosedSynced()) <==> ClosedSynced()
    {
      left := {};
      var rest := segs.Keys;
      while rest != {}
        invariant rest <= segs.Keys && Valid()
        invariant SameRecords(old(disk), disk)
        invariant forall k :: k in left <==> k in segs && k !in rest && !good(k)
        invariant forall k :: k in segs && k !in rest && k !in left ==> OpenSynced(k)
        invariant ClosedSynced() <==> old(ClosedSynced())
        decreases rest
      {
        var k :| k in rest;
        rest := rest - {k};
        if good(k) {
          ghost var before := disk;
          SyncOne(k);
          SameTwice(old(disk), before, disk);
        } else {
          left := left + {k};
        }
      }
    }

    /** Everything is synced exactly when the open and the closed segments are. */
    lemma AllFromParts()
      requires Valid() && forall k :: k in segs ==> OpenSynced(k)
      ensures AllSynced() <==> ClosedSynced()
    {
      if ClosedSynced() {
        forall k, i | k in disk && 0 <= i < |disk[k]| ensures Clean(disk[k][i]) {
          if IsOpen(segs, k, i) { assert OpenSynced(k); }
        }
      }
    }
  }

  /** The segments up to number i, and those after it. */
  function Upto(fs: seq<File>, i: nat): seq<File> {
    if i + 1 <= |fs| then fs[..i + 1] else fs
  }

  function Beyond(fs: seq<File>, i: nat): seq<File> {
    if i + 1 <= |fs| then fs[i + 1..] else []
  }

  lemma SyncedRest(disk: Disk, disk': Disk, segs: Segments, k: Key)
    requires Shape(disk, segs) && k in segs
    requires var f := disk[k][segs[k].index];
             disk' == disk[k := disk[k][segs[k].index := File(f.batches, |f.batches|)]]
    ensures Shape(disk', segs) && (Closed(disk', segs) <==> Closed(disk, segs)) && SyncedOpen(disk', segs, k)
    ensures forall j :: j != k && SyncedOpen(disk, segs, j) ==> SyncedOpen(disk', segs, j)
  {
    var at := segs[k].index;
    assert forall j, i :: j in disk && 0 <= i < |disk[j]| && !(j == k && i == at) ==> disk'[j][i] == disk[j][i];
    assert IsOpen(segs, k, at);
  }

  lemma SyncedRecords(disk: Disk, disk': Disk, segs: Segments, k: Key)
    requires Shape(disk, segs) && k in segs
    requires var f := disk[k][segs[k].index];
             disk' == disk[k := disk[k][segs[k].index := File(f.batches, |f.batches|)]]
    ensures Elsewhere(disk, disk', k) && SameRecords(disk, disk') && SameFiles(Files(disk, k), Files(disk', k))
  {
    forall j ensures SameFiles(Files(disk, j), Files(disk', j)) {
      if j == k { assert Files(disk, k) == disk[k]; }
    }
  }

  lemma WrittenFile(fs: seq<File>, i: nat, b: Batch)
    requires i < |fs| && fs[i].synced <= |fs[i].batches|
    ensures var f := File(fs[i].batches + [b], fs[i].synced);
            && Size(f.batches) == Size(fs[i].batches) + b.bytes + 4 && !Clean(f)
            && Grown(fs, fs[i := f], i, b)
  {
    var f := File(fs[i].batches + [b], fs[i].synced);
    assert f.batches[..|f.batches| - 1] == fs[i].batches;
  }

  lemma Wrote(disk: Disk, segs: Segments, k: Key, b: Batch, fs': seq<File>, disk': Disk, segs': Segments)
    requires Shape(disk, segs) && k in segs && disk' == disk[k := fs']
    requires var f := disk[k][segs[k].index];
             fs' == disk[k][segs[k].index := File(f.batches + [b], f.synced)]
    requires segs' == segs[k := Segment(segs[k].index, segs[k].size + b.bytes + 4)]
    ensures Shape(disk', segs') && (Closed(disk', segs') <==> Closed(disk, segs)) && !SyncedOpen(disk', segs', k)
    ensures Elsewhere(disk, disk', k) && Grown(Files(disk, k), Files(disk', k), segs[k].index, b)
  {
    WrittenFile(disk[k], segs[k].index, b);
    WrittenRest(disk, segs, k, fs'[segs[k].index], segs[k].size + b.bytes + 4, disk', segs');
  }

  lemma WrittenRest(disk: Disk, segs: Segments, k: Key, f: File, size: nat, disk': Disk, segs': Segments)
    requires Shape(disk, segs) && k in segs
    requires f.synced < |f.batches| && size == Size(f.batches)
    requires disk' == disk[k := disk[k][segs[k].index := f]] && segs' == segs[k := Segment(segs[k].index, size)]
    ensures Shape(disk', segs') && (Closed(disk', segs') <==> Closed(disk, segs)) && !SyncedOpen(disk', segs', k)
  {
    var at := segs[k].index;
    assert forall j, i :: IsOpen(segs', j, i) <==> IsOpen(segs, j, i);
    assert forall j, i :: j in disk && 0 <= i < |disk[j]| && !(j == k && i == at) ==> disk'[j][i] == disk[j][i];
  }

  // ---------------------------------------------------------------------
  // Two runs
  // ---------------------------------------------------------------------

  /** A pass whose open segment is full and not synced yet. */
  method FillSegment(k: Key) returns (w: Writer, b: Batch)
    ensures fresh(w) && w.Valid() && w.Full(k) && !w.OpenSynced(k)
    ensures |Files(w.disk, k)| == 1 && At(Files(w.disk, k), 0) == [b]
    ensures w.segs[k].index == 0 && b == Batch(k.job, k.pass, 1, SEGMENT_MAX_BYTES)
  {
    w := new Writer();
    b := Batch(k.job, k.pass, 1, SEGMENT_MAX_BYTES);
    w.Append(b, true);
  }

  /** A sync that fails at a rollover is never reported: the next Flush returns no
      error although a batch is not on disk. */
  method RolloverLosesSync(k: Key) returns (w: Writer, err: bool)
    ensures w.Valid() && !err && !w.AllSynced()
  {
    var b;
    w, b := FillSegment(k);
    w.Append(Batch(k.job, k.pass, 2, 0), false);
    err := w.Flush(_ => true);
  }

  /** A pass with two segments, one batch in each. */
  method TwoSegments(k: Key) returns (w: Writer, b1: Batch, b2: Batch)
    ensures fresh(w) && w.Valid() && |Files(w.disk, k)| == 2 && b1.seq_ == 1 && b2.seq_ == 2
    ensures At(Files(w.disk, k), 0) == [b1] && At(Files(w.disk, k), 1) == [b2]
  {
    w, b1 := FillSegment(k);
    b2 := Batch(k.job, k.pass, 2, 0);
    w.Append(b2, true);
  }

  /** After a restart the writer begins again at segment 0, so a pass that had
      rolled over gets its next batch before earlier ones. */
  method RestartScrambles(k: Key) returns (w: Writer, b1: Batch, b2: Batch, b3: Batch)
    ensures w.Valid() && w.Log(k) == [b1, b3, b2] && b1.seq_ < b2.seq_ < b3.seq_
  {
    w, b1, b2 := TwoSegments(k);
    b3 := Batch(k.job, k.pass, 3, 0);
    w.Restart();
    w.Append(b3, true);
    ghost var gs := Files(w.disk, k);
    assert At(gs, 0) == [b1] + [b3] && At(gs, 1) == [b2];
    JoinedTwo(gs);
  }

  lemma JoinedTwo(fs: seq<File>)
    requires |fs| == 2
    ensures Joined(fs) == fs[0].batches + fs[1].batches
  {
    assert fs == [fs[0]] + [fs[1]];
    JoinedSplit([fs[0]], [fs[1]]);
    JoinedOne(fs[0]);
    JoinedOne(fs[1]);
  }

  /** The batch is the last record of its pass if and only if no segment after the
      one it goes to holds any other batch. */
  lemma AppendedLastIff(fs: seq<File>, gs: seq<File>, i: nat, b: Batch)
    requires Grown(fs, gs, i, b) && i <= |fs|
    ensures Joined(gs) == Joined(fs) + [b] <==>
            forall k :: 0 <= k < |Joined(Beyond(fs, i))| ==> Joined(Beyond(fs, i))[k] == b
  {
    GrownLog(fs, gs, i, b);
    assert Upto(fs, i) + Beyond(fs, i) == fs;
    JoinedSplit(Upto(fs, i), Beyond(fs, i));
    LastIff(Joined(Upto(fs, i)), b, Joined(Beyond(fs, i)));
  }
}
