/** The chunked-file protocol as a state machine: many hosts write ranges of one
    temp file, tasks are granted, lost and re-granted, directories are re-swept,
    and one rename publishes the file (coordinator/internal/agentsrv/server.go,
    coordinator/internal/store/store.go CompleteDataChunk, agent/src/chunk.c
    process_chunk, agent/src/walker.c handle_orphan).

    The source keeps its size, mtime and bytes. An attempt is one execution of a
    task on some host; it goes on running when its lease has lapsed. */
module ChunkProtocol {
  import opened ChunkPlan
  import T = TempName

  datatype Option<+A> = None | Some(value: A)

  /** One file's chunk group. */
  datatype Group = Group(src: Bytes, ranges: seq<Range>, job: nat, pass: nat, shard: nat, index: nat)

  ghost predicate GoodGroup(g: Group) {
    Tiles(g.ranges, |g.src|) && g.job < T.U64 && g.pass < T.U32
  }

  datatype Task = Queued | Leased(lease: nat) | Done

  datatype Attempt =
    | DataGranted(chunk: nat, lease: nat)
    | Writing(chunk: nat, lease: nat, inode: nat, pos: nat)
    | FinGranted(lease: nat)
    | FinOpened(lease: nat)
    | FinRenamed(lease: nat)
    | Ended

  datatype World = World(
    inodes: seq<Bytes>,          // contents, by inode number
    temp: Option<nat>,           // inode the temp name refers to
    final: Option<nat>,          // inode published under the final name
    chunks: seq<Task>,
    nDone: nat,                  // chunk_groups.n_done
    fin: Option<Task>,           // the finalize task, once seeded
    attempts: seq<Attempt>,
    leases: nat                  // leases handed out so far
  )

  datatype Step =
    | Grant(c: nat)              // a queued data chunk is leased to a host
    | Expire(c: nat)             // its lease lapses, or the shard is requeued
    | Open(a: nat, alloc: bool)  // the attempt opens the temp with O_CREAT; alloc: fallocate works
    | Write(a: nat, n: nat)      // it copies up to n more bytes of its range
    | Report(a: nat)             // it reports OK and the result arrives
    | Die(a: nat)                // it stops, or its result is lost
    | GrantFin
    | ExpireFin
    | OpenFin(a: nat)
    | Rename(a: nat)
    | ReportFin(a: nat)
    | Sweep(job: nat, pass: nat) // a walk meets the temp as an orphan

  function Init(g: Group): World {
    World([], None, None, seq(|g.ranges|, c => Queued), 0, None, [], 0)
  }

  /** What the temp holds once an attempt at chunk c opened it: a missing one is
      created empty, and chunk 0 preallocates where the file system can. */
  function Opened(g: Group, w: World, c: nat, alloc: bool): Bytes {
    var f := if w.temp.Some? && w.temp.value < |w.inodes| then w.inodes[w.temp.value] else [];
    if c == 0 && alloc then Extended(f, |g.src|) else f
  }

  ghost function Apply(g: Group, w: World, s: Step): World {
    match s
    case Grant(c) =>
      if c < |w.chunks| && w.chunks[c] == Queued then
        w.(chunks := w.chunks[c := Leased(w.leases)],
           attempts := w.attempts + [DataGranted(c, w.leases)], leases := w.leases + 1)
      else w
    case Expire(c) =>
      if c < |w.chunks| && w.chunks[c].Leased? then w.(chunks := w.chunks[c := Queued]) else w
    case Open(a, alloc) =>
      if a < |w.attempts| && w.attempts[a].DataGranted? && w.attempts[a].chunk < |g.ranges| then
        var t := w.attempts[a];
        var w1 := if w.temp.None? then w.(inodes := w.inodes + [[]], temp := Some(|w.inodes|)) else w;
        var i := w1.temp.value;
        var w2 := if i < |w1.inodes| then w1.(inodes := w1.inodes[i := Opened(g, w, t.chunk, alloc)]) else w1;
        w2.(attempts := w2.attempts[a := Writing(t.chunk, t.lease, i, g.ranges[t.chunk].off)])
      else w
    case Write(a, n) =>
      if a < |w.attempts| && w.attempts[a].Writing? && w.attempts[a].chunk < |g.ranges| && w.attempts[a].inode < |w.inodes| then
        var t := w.attempts[a];
        var end := g.ranges[t.chunk].off + g.ranges[t.chunk].len;
        if n > 0 && t.pos + n <= end && end <= |g.src| then
          w.(inodes := w.inodes[t.inode := WriteAt(w.inodes[t.inode], t.pos, g.src[t.pos..t.pos + n])],
             attempts := w.attempts[a := t.(pos := t.pos + n)])
        else w
      else w
    case Report(a) =>
      if a < |w.attempts| && w.attempts[a].Writing? && w.attempts[a].chunk < |g.ranges| && w.attempts[a].chunk < |w.chunks|
         && w.attempts[a].pos == g.ranges[w.attempts[a].chunk].off + g.ranges[w.attempts[a].chunk].len then
        var t := w.attempts[a];
        var w1 := w.(attempts := w.attempts[a := Ended]);
        if w.chunks[t.chunk] == Leased(t.lease) then
          var w2 := w1.(chunks := w1.chunks[t.chunk := Done], nDone := w1.nDone + 1);
          if w2.nDone >= |g.ranges| then w2.(fin := Some(Queued)) else w2
        else w1 // lease mismatch: the stale result is dropped
      else w
    case Die(a) =>
      if a < |w.attempts| then w.(attempts := w.attempts[a := Ended]) else w
    case GrantFin =>
      if w.fin == Some(Queued) then
        w.(fin := Some(Leased(w.leases)), attempts := w.attempts + [FinGranted(w.leases)], leases := w.leases + 1)
      else w
    case ExpireFin =>
      if w.fin.Some? && w.fin.value.Leased? then w.(fin := Some(Queued)) else w
    case OpenFin(a) =>
      if a < |w.attempts| && w.attempts[a].FinGranted? then
        var l := w.attempts[a].lease;
        if w.temp.Some? then w.(attempts := w.attempts[a := FinOpened(l)])
        else if w.final.Some? && w.final.value < |w.inodes| && |w.inodes[w.final.value]| == |g.src|
        then w.(attempts := w.attempts[a := FinRenamed(l)]) // an earlier finalize already published it
        else w.(attempts := w.attempts[a := Ended])
      else w
    case Rename(a) =>
      if a < |w.attempts| && w.attempts[a].FinOpened? then
        if w.temp.Some? then
          w.(final := w.temp, temp := None, attempts := w.attempts[a := FinRenamed(w.attempts[a].lease)])
        else w.(attempts := w.attempts[a := Ended])
      else w
    case ReportFin(a) =>
      if a < |w.attempts| && w.attempts[a].FinRenamed? then
        var w1 := w.(attempts := w.attempts[a := Ended]);
        if w.fin == Some(Leased(w.attempts[a].lease)) then w1.(fin := Some(Done)) else w1
      else w
    case Sweep(j, p) =>
      // the walker unlinks an orphan temp unless it carries the walker's own tag
      if T.TagIs(T.Tail(g.job, g.pass, g.shard, g.index), j, p) then w else w.(temp := None)
  }

  ghost function Run(g: Group, w: World, steps: seq<Step>): World
    decreases |steps|
  {
    if steps == [] then w else Run(g, Apply(g, w, steps[0]), steps[1..])
  }

  /** A finalize may still open and rename the temp. */
  ghost predicate CanFinalize(w: World) {
    || (w.fin.Some? && w.fin.value != Done)
    || (exists k :: 0 <= k < |w.attempts| && (w.attempts[k].FinGranted? || w.attempts[k].FinOpened?))
  }

  /** A late open: the file is published, a finalize may still run, and the temp
      it would find is not the source. */
  ghost predicate Spoils(g: Group, w: World, a: nat, alloc: bool) {
    && a < |w.attempts| && w.attempts[a].DataGranted? && w.attempts[a].chunk < |g.ranges|
    && w.final.Some? && CanFinalize(w) && Opened(g, w, w.attempts[a].chunk, alloc) != g.src
  }

  /** What the protocol needs of its surroundings: sweeps are those of the same
      job and pass, and no open comes so late that it spoils the file. */
  ghost predicate Allowed(g: Group, w: World, s: Step) {
    match s
    case Sweep(j, p) => j == g.job && p == g.pass
    case Open(a, alloc) => !Spoils(g, w, a, alloc)
    case _ => true
  }

  ghost predicate AllAllowed(g: Group, w: World, steps: seq<Step>)
    decreases |steps|
  {
    steps != [] ==> Allowed(g, w, steps[0]) && AllAllowed(g, Apply(g, w, steps[0]), steps[1..])
  }

  // ---------------------------------------------------------------------
  // Invariant
  // ---------------------------------------------------------------------

  /** Offsets [from, to) of f hold the source's bytes. */
  ghost predicate Holds(g: Group, f: Bytes, from: nat, to: nat) {
    to <= |f| <= |g.src| && forall k :: from <= k < to ==> f[k] == g.src[k]
  }

  ghost predicate HoldsSome(g: Group, f: Bytes, from: nat, to: nat) {
    from < to ==> Holds(g, f, from, to)
  }

  function CountDone(ts: seq<Task>): nat {
    if ts == [] then 0 else (if ts[0] == Done then 1 else 0) + CountDone(ts[1..])
  }

  function End(r: Range): nat { r.off + r.len }

  ghost predicate AttemptOk(g: Group, inodes: seq<Bytes>, seeded: bool, t: Attempt) {
    match t
    case DataGranted(c, _) => c < |g.ranges|
    case Writing(c, _, i, pos) =>
      c < |g.ranges| && i == 0 && |inodes| == 1
      && g.ranges[c].off <= pos <= End(g.ranges[c])
      && HoldsSome(g, inodes[0], g.ranges[c].off, pos)
    case Ended => true
    case _ => seeded
  }

  ghost predicate AttemptsOk(g: Group, inodes: seq<Bytes>, seeded: bool, ts: seq<Attempt>) {
    forall a :: 0 <= a < |ts| ==> AttemptOk(g, inodes, seeded, ts[a])
  }

  /** One inode serves the whole group; it is under the temp name until it is
      under the final name, which needs a seeded finalize. */
  ghost predicate FilesOk(g: Group, inodes: seq<Bytes>, temp: Option<nat>, final: Option<nat>, seeded: bool) {
    && |inodes| <= 1 && (|inodes| == 1 ==> |inodes[0]| <= |g.src|)
    && (temp.Some? ==> temp.value == 0 && |inodes| == 1)
    && (final.Some? ==> final.value == 0 && |inodes| == 1 && temp.None? && seeded)
    && (|inodes| == 1 ==> temp.Some? || final.Some?)
  }

  /** The finalize is seeded exactly when every chunk is done, and the range of
      a done chunk is in the file. */
  ghost predicate TasksOk(g: Group, inodes: seq<Bytes>, chunks: seq<Task>, nDone: nat, seeded: bool) {
    && |chunks| == |g.ranges| && nDone == CountDone(chunks)
    && (seeded <==> nDone == |g.ranges|)
    && (forall c :: 0 <= c < |chunks| && chunks[c] == Done ==>
          |inodes| == 1 && HoldsSome(g, inodes[0], g.ranges[c].off, End(g.ranges[c])))
  }

  /** While the file is being built, and up to its first publication. */
  ghost predicate Single(g: Group, w: World) {
    && FilesOk(g, w.inodes, w.temp, w.final, w.fin.Some?)
    && TasksOk(g, w.inodes, w.chunks, w.nDone, w.fin.Some?)
    && AttemptsOk(g, w.inodes, w.fin.Some?, w.attempts)
  }

  /** From then on: the final name refers to the source's bytes, and so does the
      temp as long as a finalize may still run. */
  ghost predicate Published(g: Group, w: World) {
    && |w.chunks| == |g.ranges| && (forall c :: 0 <= c < |w.chunks| ==> w.chunks[c] == Done) && w.fin.Some?
    && w.final.Some? && w.final.value < |w.inodes| && w.inodes[w.final.value] == g.src
    && (w.temp.Some? ==> w.temp.value < |w.inodes| && (CanFinalize(w) ==> w.inodes[w.temp.value] == g.src))
  }

  ghost predicate Inv(g: Group, w: World) {
    if w.final.None? then Single(g, w) else Published(g, w)
  }

  lemma {:induction false} CountUpdate(ts: seq<Task>, c: nat, t: Task)
    requires c < |ts|
    ensures CountDone(ts[c := t]) == CountDone(ts) - (if ts[c] == Done then 1 else 0) + (if t == Done then 1 else 0)
  {
    if c == 0 {
      assert ts[c := t][1..] == ts[1..];
    } else {
      assert ts[c := t][1..] == ts[1..][c - 1 := t];
      CountUpdate(ts[1..], c - 1, t);
    }
  }

  lemma {:induction false} CountBound(ts: seq<Task>)
    ensures CountDone(ts) <= |ts|
    ensures CountDone(ts) == |ts| ==> forall c :: 0 <= c < |ts| ==> ts[c] == Done
  {
    if ts != [] {
      CountBound(ts[1..]);
      assert forall c :: 0 < c < |ts| ==> ts[c] == ts[1..][c - 1];
    }
  }

  lemma {:induction false} CountZero(ts: seq<Task>)
    requires forall c :: 0 <= c < |ts| ==> ts[c] == Queued
    ensures CountDone(ts) == 0
  {
    if ts != [] { CountZero(ts[1..]); }
  }

  lemma {:induction false} RangesInside(g: Group, c: nat)
    requires Tiles(g.ranges, |g.src|) && c < |g.ranges|
    ensures End(g.ranges[c]) <= |g.src|
    decreases |g.ranges| - c
  {
    if c + 1 < |g.ranges| { RangesInside(g, c + 1); }
  }

  /** Writing source bytes at their own offset spoils nothing. */
  lemma WriteKeeps(g: Group, f: Bytes, pos: nat, n: nat, from: nat, to: nat)
    requires n > 0 && pos + n <= |g.src| && |f| <= |g.src|
    requires HoldsSome(g, f, from, to)
    ensures HoldsSome(g, WriteAt(f, pos, g.src[pos..pos + n]), from, to)
    ensures |WriteAt(f, pos, g.src[pos..pos + n])| <= |g.src|
  {
    Written(f, pos, g.src[pos..pos + n]);
  }

  lemma WriteExtends(g: Group, f: Bytes, from: nat, pos: nat, n: nat)
    requires n > 0 && from <= pos && pos + n <= |g.src| && |f| <= |g.src|
    requires HoldsSome(g, f, from, pos)
    ensures HoldsSome(g, WriteAt(f, pos, g.src[pos..pos + n]), from, pos + n)
  {
    Written(f, pos, g.src[pos..pos + n]);
  }

  lemma InitInv(g: Group)
    requires GoodGroup(g)
    ensures Inv(g, Init(g))
  {
    CountZero(Init(g).chunks);
  }

  lemma WriteStep(g: Group, w: World, a: nat, n: nat)
    requires GoodGroup(g) && Single(g, w)
    ensures Single(g, Apply(g, w, Write(a, n)))
  {
    if Writes(g, w, a, n) {
      assert AttemptOk(g, w.inodes, w.fin.Some?, w.attempts[a]);
      WriteHappens(g, w, a, n);
    }
  }

  /** The attempt has the temp open and n bytes of its range still to copy. */
  ghost predicate Writes(g: Group, w: World, a: nat, n: nat) {
    && a < |w.attempts| && w.attempts[a].Writing? && w.attempts[a].chunk < |g.ranges| && w.attempts[a].inode < |w.inodes|
    && 0 < n && w.attempts[a].pos + n <= End(g.ranges[w.attempts[a].chunk]) <= |g.src|
  }

  /** The ranges lie in the source, so an attempt with bytes of its range left to
      copy is never held up: the bytes land and it moves on. */
  lemma PlannedWriteHappens(g: Group, w: World, a: nat, n: nat)
    requires GoodGroup(g) && Single(g, w) && a < |w.attempts| && w.attempts[a].Writing?
    requires 0 < n && w.attempts[a].chunk < |g.ranges| && w.attempts[a].pos + n <= End(g.ranges[w.attempts[a].chunk])
    ensures Writes(g, w, a, n)
    ensures var t := w.attempts[a];
            var w' := Apply(g, w, Write(a, n));
            && w'.attempts[a] == t.(pos := t.pos + n)
            && HoldsSome(g, w'.inodes[0], g.ranges[t.chunk].off, t.pos + n)
  {
    var t := w.attempts[a];
    assert AttemptOk(g, w.inodes, w.fin.Some?, t);
    RangesInside(g, t.chunk);
    WriteApplied(g, w, a, n, t, WriteAt(w.inodes[0], t.pos, g.src[t.pos..t.pos + n]));
    WriteExtends(g, w.inodes[0], g.ranges[t.chunk].off, t.pos, n);
  }

  lemma WriteHappens(g: Group, w: World, a: nat, n: nat)
    requires Single(g, w) && Writes(g, w, a, n) && AttemptOk(g, w.inodes, w.fin.Some?, w.attempts[a])
    ensures Single(g, Apply(g, w, Write(a, n)))
  {
    var t, f := w.attempts[a], w.inodes[0];
    var f' := WriteAt(f, t.pos, g.src[t.pos..t.pos + n]);
    WriteKeeps(g, f, t.pos, n, 0, 0);
    WriteTasks(g, w, f, t.pos, n);
    assert w.inodes == [f];
    WriteAttempts(g, f, w.fin.Some?, w.attempts, a, n);
    Rewritten(g, w, f', w.attempts[a := t.(pos := t.pos + n)]);
    WriteApplied(g, w, a, n, t, f');
  }

  lemma WriteApplied(g: Group, w: World, a: nat, n: nat, t: Attempt, f': Bytes)
    requires a < |w.attempts| && t == w.attempts[a] && t.Writing? && t.chunk < |g.ranges| && t.inode == 0 && |w.inodes| == 1
    requires 0 < n && t.pos + n <= End(g.ranges[t.chunk]) <= |g.src|
    requires f' == WriteAt(w.inodes[0], t.pos, g.src[t.pos..t.pos + n])
    ensures Apply(g, w, Write(a, n)) == w.(inodes := w.inodes[0 := f'], attempts := w.attempts[a := t.(pos := t.pos + n)])
  {
  }

  /** The only file's bytes and one attempt changed. */
  lemma Rewritten(g: Group, w: World, f': Bytes, ts: seq<Attempt>)
    requires Single(g, w) && |w.inodes| == 1 && |f'| <= |g.src|
    requires TasksOk(g, [f'], w.chunks, w.nDone, w.fin.Some?) && AttemptsOk(g, [f'], w.fin.Some?, ts)
    ensures Single(g, w.(inodes := w.inodes[0 := f'], attempts := ts))
  {
    assert w.inodes[0 := f'] == [f'];
  }

  lemma WriteTasks(g: Group, w: World, f: Bytes, pos: nat, n: nat)
    requires Single(g, w) && w.inodes == [f] && n > 0 && pos + n <= |g.src|
    ensures TasksOk(g, [WriteAt(f, pos, g.src[pos..pos + n])], w.chunks, w.nDone, w.fin.Some?)
  {
    forall c | 0 <= c < |w.chunks| && w.chunks[c] == Done
      ensures HoldsSome(g, WriteAt(f, pos, g.src[pos..pos + n]), g.ranges[c].off, End(g.ranges[c]))
    {
      WriteKeeps(g, f, pos, n, g.ranges[c].off, End(g.ranges[c]));
    }
  }

  lemma WriteAttempts(g: Group, f: Bytes, seeded: bool, ts: seq<Attempt>, a: nat, n: nat)
    requires AttemptsOk(g, [f], seeded, ts) && a < |ts| && ts[a].Writing? && ts[a].chunk < |g.ranges|
    requires 0 < n && ts[a].pos + n <= End(g.ranges[ts[a].chunk]) <= |g.src| && |f| <= |g.src|
    ensures AttemptsOk(g, [WriteAt(f, ts[a].pos, g.src[ts[a].pos..ts[a].pos + n])], seeded, ts[a := ts[a].(pos := ts[a].pos + n)])
  {
    var t := ts[a];
    var f', us := WriteAt(f, t.pos, g.src[t.pos..t.pos + n]), ts[a := t.(pos := t.pos + n)];
    assert AttemptOk(g, [f], seeded, t);
    WriteExtends(g, f, g.ranges[t.chunk].off, t.pos, n);
    forall b | 0 <= b < |us| ensures AttemptOk(g, [f'], seeded, us[b]) {
      if b != a {
        assert AttemptOk(g, [f], seeded, ts[b]);
        OtherAttempt(g, f, seeded, ts[b], t.pos, n);
      }
    }
  }

  lemma OtherAttempt(g: Group, f: Bytes, seeded: bool, u: Attempt, pos: nat, n: nat)
    requires AttemptOk(g, [f], seeded, u) && n > 0 && pos + n <= |g.src| && |f| <= |g.src|
    ensures AttemptOk(g, [WriteAt(f, pos, g.src[pos..pos + n])], seeded, u)
  {
    if u.Writing? {
      WriteKeeps(g, f, pos, n, g.ranges[u.chunk].off, u.pos);
    }
  }

  lemma OpenStep(g: Group, w: World, a: nat, alloc: bool)
    requires GoodGroup(g) && Single(g, w) && w.final.None?
    ensures Single(g, Apply(g, w, Open(a, alloc)))
  {
    if a < |w.attempts| && w.attempts[a].DataGranted? {
      var w' := Apply(g, w, Open(a, alloc));
      assert AttemptOk(g, w.inodes, w.fin.Some?, w.attempts[a]);
      assert |w'.inodes| == 1 && w'.temp == Some(0);
      OpenKeeps(g, w, w.attempts[a].chunk, alloc);
      forall b | 0 <= b < |w'.attempts| ensures AttemptOk(g, w'.inodes, w'.fin.Some?, w'.attempts[b]) {
        assert AttemptOk(g, w.inodes, w.fin.Some?, w.attempts[b]);
      }
    }
  }

  /** Opening, preallocation included, keeps every byte the temp had. */
  lemma OpenKeeps(g: Group, w: World, c: nat, alloc: bool)
    requires w.temp.Some? ==> w.temp.value < |w.inodes| && |w.inodes[w.temp.value]| <= |g.src|
    ensures |Opened(g, w, c, alloc)| <= |g.src|
    ensures w.temp.Some? ==> forall from: nat, to: nat :: HoldsSome(g, w.inodes[w.temp.value], from, to) ==>
              HoldsSome(g, Opened(g, w, c, alloc), from, to)
    ensures w.temp.Some? && w.inodes[w.temp.value] == g.src ==> Opened(g, w, c, alloc) == g.src
  {
  }

  /** An attempt may be replaced by any other that is in order. */
  lemma AttemptReplaced(g: Group, inodes: seq<Bytes>, seeded: bool, seeded': bool, ts: seq<Attempt>, a: nat, t: Attempt)
    requires AttemptsOk(g, inodes, seeded, ts) && a < |ts| && (seeded ==> seeded')
    requires AttemptOk(g, inodes, seeded', t)
    ensures AttemptsOk(g, inodes, seeded', ts[a := t])
  {
    var us := ts[a := t];
    forall b | 0 <= b < |us| ensures AttemptOk(g, inodes, seeded', us[b]) {
      assert AttemptOk(g, inodes, seeded, ts[b]);
    }
  }

  lemma ReportStep(g: Group, w: World, a: nat)
    requires GoodGroup(g) && Single(g, w)
    ensures Single(g, Apply(g, w, Report(a)))
  {
    if a < |w.attempts| && w.attempts[a].Writing? {
      var t, w' := w.attempts[a], Apply(g, w, Report(a));
      assert AttemptOk(g, w.inodes, w.fin.Some?, t);
      if w.chunks[t.chunk] == Leased(t.lease) {
        CountUpdate(w.chunks, t.chunk, Done);
        CountBound(w.chunks[t.chunk := Done]);
      }
      AttemptReplaced(g, w.inodes, w.fin.Some?, w'.fin.Some?, w.attempts, a, Ended);
    }
  }

  lemma GrantStep(g: Group, w: World, s: Step)
    requires GoodGroup(g) && Single(g, w)
    requires s.Grant? || s.Expire? || s.GrantFin? || s.ExpireFin?
    ensures Single(g, Apply(g, w, s))
  {
    if s.Grant? && s.c < |w.chunks| { CountUpdate(w.chunks, s.c, Leased(w.leases)); }
    if s.Expire? && s.c < |w.chunks| { CountUpdate(w.chunks, s.c, Queued); }
  }

  lemma FinStep(g: Group, w: World, s: Step)
    requires GoodGroup(g) && Single(g, w)
    requires s.Die? || s.OpenFin? || s.Rename? || s.ReportFin?
    ensures Single(g, Apply(g, w, s))
  {
    var w' := Apply(g, w, s);
    if s.a < |w.attempts| && w' != w {
      assert AttemptOk(g, w.inodes, w.fin.Some?, w.attempts[s.a]);
      AttemptReplaced(g, w.inodes, w.fin.Some?, w.fin.Some?, w.attempts, s.a, w'.attempts[s.a]);
      assert w'.attempts == w.attempts[s.a := w'.attempts[s.a]];
    }
  }

  lemma SingleStep(g: Group, w: World, s: Step)
    requires GoodGroup(g) && Single(g, w) && w.final.None? && Allowed(g, w, s)
    ensures Single(g, Apply(g, w, s))
  {
    match s
    case Write(a, n) => WriteStep(g, w, a, n);
    case Open(a, alloc) => OpenStep(g, w, a, alloc);
    case Report(a) => ReportStep(g, w, a);
    case Sweep(j, p) => T.FormattedTagMatchesIff(g.job, g.pass, g.shard, g.index, j, p);
    case Grant(_) => GrantStep(g, w, s);
    case Expire(_) => GrantStep(g, w, s);
    case GrantFin => GrantStep(g, w, s);
    case ExpireFin => GrantStep(g, w, s);
    case _ => FinStep(g, w, s);
  }

  /** The first rename publishes a whole file. */
  lemma FirstPublished(g: Group, w: World)
    requires GoodGroup(g) && Single(g, w) && w.final.Some?
    ensures Published(g, w)
  {
    CountBound(w.chunks);
    forall d | 0 <= d < |g.ranges| ensures HoldsSome(g, w.inodes[0], g.ranges[d].off, End(g.ranges[d])) {
      assert w.chunks[d] == Done;
    }
    AllRangesWhole(g, w.inodes[0]);
  }

  // ---- after publication ----

  /** Nothing makes a finalize possible again. */
  lemma FinalizeFades(g: Group, w: World, s: Step)
    requires w.fin.Some? && |w.chunks| == |g.ranges| && forall c :: 0 <= c < |w.chunks| ==> w.chunks[c] == Done
    requires CanFinalize(Apply(g, w, s))
    ensures CanFinalize(w)
  {
    var w' := Apply(g, w, s);
    if w'.fin == w.fin && !(w.fin.value != Done) {
      var k :| 0 <= k < |w'.attempts| && (w'.attempts[k].FinGranted? || w'.attempts[k].FinOpened?);
      assert k < |w.attempts|;
      assert w.attempts[k].FinGranted? || w.attempts[k].FinOpened?;
    }
  }

  /** Source bytes written at their own offset leave the source as it is. */
  lemma SourceKept(g: Group, pos: nat, n: nat)
    requires pos + n <= |g.src|
    ensures WriteAt(g.src, pos, g.src[pos..pos + n]) == g.src
  {
    Written(g.src, pos, g.src[pos..pos + n]);
  }

  lemma LateWrite(g: Group, w: World, a: nat, n: nat)
    requires GoodGroup(g) && Published(g, w)
    ensures Published(g, Apply(g, w, Write(a, n)))
  {
    var w' := Apply(g, w, Write(a, n));
    if w' != w {
      var t := w.attempts[a];
      SourceKept(g, t.pos, n);
      assert forall i :: 0 <= i < |w.inodes| && w.inodes[i] == g.src ==> w'.inodes[i] == g.src;
      if CanFinalize(w') { FinalizeFades(g, w, Write(a, n)); }
    }
  }

  lemma LateOpen(g: Group, w: World, a: nat, alloc: bool)
    requires GoodGroup(g) && Published(g, w) && !Spoils(g, w, a, alloc)
    ensures Published(g, Apply(g, w, Open(a, alloc)))
  {
    var w' := Apply(g, w, Open(a, alloc));
    if w' != w {
      if CanFinalize(w') { FinalizeFades(g, w, Open(a, alloc)); }
      LateOpened(g, w, a, alloc);
    }
  }

  /** What a late open leaves under the two names. */
  lemma LateOpened(g: Group, w: World, a: nat, alloc: bool)
    requires Published(g, w) && a < |w.attempts| && w.attempts[a].DataGranted? && w.attempts[a].chunk < |g.ranges|
    ensures var w' := Apply(g, w, Open(a, alloc));
            && w'.temp.Some? && w'.temp.value < |w'.inodes|
            && w'.inodes[w'.temp.value] == Opened(g, w, w.attempts[a].chunk, alloc)
            && w'.final == w.final && w'.final.value < |w'.inodes| && w'.inodes[w'.final.value] == g.src
  {
    var w' := Apply(g, w, Open(a, alloc));
    if w.temp.Some? && w.temp.value == w.final.value {
      assert Extended(g.src, |g.src|) == g.src;
    }
  }

  lemma LateOther(g: Group, w: World, s: Step)
    requires GoodGroup(g) && Published(g, w) && Allowed(g, w, s) && !s.Open? && !s.Write?
    ensures Published(g, Apply(g, w, s))
  {
    var w' := Apply(g, w, s);
    if s.Sweep? { T.FormattedTagMatchesIff(g.job, g.pass, g.shard, g.index, s.job, s.pass); }
    if CanFinalize(w') { FinalizeFades(g, w, s); }
    if s.Rename? && w' != w {
      assert w.attempts[s.a].FinOpened?;
    }
  }

  lemma StepInv(g: Group, w: World, s: Step)
    requires GoodGroup(g) && Inv(g, w) && Allowed(g, w, s)
    ensures Inv(g, Apply(g, w, s))
  {
    if w.final.None? {
      SingleStep(g, w, s);
      if Apply(g, w, s).final.Some? { FirstPublished(g, Apply(g, w, s)); }
    } else if s.Write? {
      LateWrite(g, w, s.a, s.n);
    } else if s.Open? {
      LateOpen(g, w, s.a, s.alloc);
    } else {
      LateOther(g, w, s);
    }
  }

  lemma {:induction false} RunInv(g: Group, w: World, steps: seq<Step>)
    requires GoodGroup(g) && Inv(g, w) && AllAllowed(g, w, steps)
    ensures Inv(g, Run(g, w, steps))
    decreases |steps|
  {
    if steps != [] {
      StepInv(g, w, steps[0]);
      RunInv(g, Apply(g, w, steps[0]), steps[1..]);
    }
  }

  lemma {:induction false} CoveredBy(g: Group, f: Bytes, k: nat, c: nat)
    requires Tiles(g.ranges, |g.src|) && c < |g.ranges| && k < End(g.ranges[c])
    requires forall d :: 0 <= d < |g.ranges| ==> HoldsSome(g, f, g.ranges[d].off, End(g.ranges[d]))
    ensures k < |f| <= |g.src| && f[k] == g.src[k]
    decreases c
  {
    if k < g.ranges[c].off {
      CoveredBy(g, f, k, c - 1);
    }
  }

  /** All ranges landed, so the file is whole. */
  lemma AllRangesWhole(g: Group, f: Bytes)
    requires Tiles(g.ranges, |g.src|) && |f| <= |g.src|
    requires forall d :: 0 <= d < |g.ranges| ==> HoldsSome(g, f, g.ranges[d].off, End(g.ranges[d]))
    ensures f == g.src
  {
    forall k | 0 <= k < |g.src| ensures k < |f| && f[k] == g.src[k] {
      CoveredBy(g, f, k, |g.ranges| - 1);
    }
    assert |f| == |g.src| by {
      if |g.src| > 0 { CoveredBy(g, f, |g.src| - 1, |g.ranges| - 1); }
    }
  }

  /** Chunked copy is exact: in every interleaving of grants, lapsed leases,
      partial writes, lost results, re-runs and same-pass sweeps, whatever the
      final name refers to is the source, byte for byte, and stays so. */
  lemma PublishedIsExact(g: Group, steps: seq<Step>)
    requires GoodGroup(g) && AllAllowed(g, Init(g), steps)
    ensures !Wrong(g, Run(g, Init(g), steps))
  {
    InitInv(g);
    RunInv(g, Init(g), steps);
  }

  /** Something other than the source is under the final name. */
  predicate Wrong(g: Group, w: World) {
    w.final.Some? && !(w.final.value < |w.inodes| && w.inodes[w.final.value] == g.src)
  }

  /** End to end: a file cut up by the planner and published by any allowed run
      is the source byte for byte. */
  lemma PlannedFileIsExact(src: Bytes, chunkSize: nat, job: nat, pass: nat, shard: nat, index: nat, steps: seq<Step>)
    requires 0 < chunkSize < |src| < I63 && job < T.U64 && pass < T.U32
    requires var g := Group(src, Plan(|src|, chunkSize), job, pass, shard, index); AllAllowed(g, Init(g), steps)
    ensures var g := Group(src, Plan(|src|, chunkSize), job, pass, shard, index);
            !Wrong(g, Run(g, Init(g), steps))
  {
    RealSizesTile(|src|, chunkSize);
    PublishedIsExact(Group(src, Plan(|src|, chunkSize), job, pass, shard, index), steps);
  }

  // ---------------------------------------------------------------------
  // Exactly when an open is too late
  // ---------------------------------------------------------------------

  /** The surroundings behave from here on, and still a wrong file can appear. */
  ghost predicate CanGoWrong(g: Group, w: World) {
    exists steps :: AllAllowed(g, w, steps) && Wrong(g, Run(g, w, steps))
  }

  /** Steps that are neither an open nor a sweep, one after the other. */
  lemma RunStep(g: Group, w: World, s: Step, rest: seq<Step>)
    requires !s.Open? && !s.Sweep? && AllAllowed(g, Apply(g, w, s), rest)
    ensures AllAllowed(g, w, [s] + rest) && Run(g, w, [s] + rest) == Run(g, Apply(g, w, s), rest)
  {
    assert ([s] + rest)[1..] == rest;
  }

  /** A finalize that has the temp open renames whatever the name refers to. */
  lemma RenameNow(g: Group, w: World, k: nat) returns (steps: seq<Step>)
    requires k < |w.attempts| && w.attempts[k].FinOpened? && w.temp.Some?
    ensures AllAllowed(g, w, steps)
    ensures Run(g, w, steps).final == w.temp && Run(g, w, steps).inodes == w.inodes
  {
    steps := [Rename(k)] + [];
    RunStep(g, w, Rename(k), []);
  }

  lemma OpenAndRename(g: Group, w: World, k: nat) returns (steps: seq<Step>)
    requires k < |w.attempts| && w.attempts[k].FinGranted? && w.temp.Some?
    ensures AllAllowed(g, w, steps)
    ensures Run(g, w, steps).final == w.temp && Run(g, w, steps).inodes == w.inodes
  {
    var rest := RenameNow(g, Apply(g, w, OpenFin(k)), k);
    steps := [OpenFin(k)] + rest;
    RunStep(g, w, OpenFin(k), rest);
  }

  lemma GrantAndRename(g: Group, w: World) returns (steps: seq<Step>)
    requires w.fin == Some(Queued) && w.temp.Some?
    ensures AllAllowed(g, w, steps)
    ensures Run(g, w, steps).final == w.temp && Run(g, w, steps).inodes == w.inodes
  {
    var rest := OpenAndRename(g, Apply(g, w, GrantFin), |w.attempts|);
    steps := [GrantFin] + rest;
    RunStep(g, w, GrantFin, rest);
  }

  /** As long as a finalize may run, some continuation publishes the temp. */
  lemma TempGetsPublished(g: Group, w: World) returns (steps: seq<Step>)
    requires CanFinalize(w) && w.temp.Some?
    ensures AllAllowed(g, w, steps)
    ensures Run(g, w, steps).final == w.temp && Run(g, w, steps).inodes == w.inodes
  {
    if w.fin.Some? && w.fin.value == Queued {
      steps := GrantAndRename(g, w);
    } else if w.fin.Some? && w.fin.value.Leased? {
      var rest := GrantAndRename(g, Apply(g, w, ExpireFin));
      steps := [ExpireFin] + rest;
      RunStep(g, w, ExpireFin, rest);
    } else {
      var k :| 0 <= k < |w.attempts| && (w.attempts[k].FinGranted? || w.attempts[k].FinOpened?);
      if w.attempts[k].FinGranted? {
        steps := OpenAndRename(g, w, k);
      } else {
        steps := RenameNow(g, w, k);
      }
    }
  }

  lemma SpoilingOpenGoesWrong(g: Group, w: World, a: nat, alloc: bool)
    requires GoodGroup(g) && Inv(g, w) && Spoils(g, w, a, alloc)
    ensures CanGoWrong(g, Apply(g, w, Open(a, alloc)))
  {
    var w' := Apply(g, w, Open(a, alloc));
    LateOpened(g, w, a, alloc);
    FinalizeStays(g, w, a, alloc);
    var steps := TempGetsPublished(g, w');
    assert Wrong(g, Run(g, w', steps));
  }

  lemma FinalizeStays(g: Group, w: World, a: nat, alloc: bool)
    requires CanFinalize(w) && a < |w.attempts| && w.attempts[a].DataGranted?
    ensures CanFinalize(Apply(g, w, Open(a, alloc)))
  {
    var w' := Apply(g, w, Open(a, alloc));
    if !(w.fin.Some? && w.fin.value != Done) {
      var k :| 0 <= k < |w.attempts| && (w.attempts[k].FinGranted? || w.attempts[k].FinOpened?);
      assert w'.attempts[k] == w.attempts[k];
    }
  }

  /** An open leads to a wrong file in some continuation if and only if the file
      is already published, a finalize may still run, and the temp it would find
      is not the source. */
  lemma OpenGoesWrongIff(g: Group, w: World, a: nat, alloc: bool)
    requires GoodGroup(g) && Inv(g, w)
    ensures CanGoWrong(g, Apply(g, w, Open(a, alloc))) <==> Spoils(g, w, a, alloc)
  {
    if Spoils(g, w, a, alloc) {
      SpoilingOpenGoesWrong(g, w, a, alloc);
    } else {
      StepInv(g, w, Open(a, alloc));
      forall steps | AllAllowed(g, Apply(g, w, Open(a, alloc)), steps)
        ensures !Wrong(g, Run(g, Apply(g, w, Open(a, alloc)), steps))
      {
        RunInv(g, Apply(g, w, Open(a, alloc)), steps);
      }
    }
  }

  // ---------------------------------------------------------------------
  // A group can always be completed
  // ---------------------------------------------------------------------

  lemma RunNext(g: Group, w: World, s: Step, rest: seq<Step>)
    requires Allowed(g, w, s) && AllAllowed(g, Apply(g, w, s), rest)
    ensures AllAllowed(g, w, [s] + rest) && Run(g, w, [s] + rest) == Run(g, Apply(g, w, s), rest)
  {
    assert ([s] + rest)[1..] == rest;
  }

  lemma {:induction false} RunOn(g: Group, w: World, a: seq<Step>, b: seq<Step>)
    requires AllAllowed(g, w, a) && AllAllowed(g, Run(g, w, a), b)
    ensures AllAllowed(g, w, a + b) && Run(g, w, a + b) == Run(g, Run(g, w, a), b)
    decreases |a|
  {
    if a == [] {
      assert a + b == b;
    } else {
      assert (a + b)[0] == a[0] && (a + b)[1..] == a[1..] + b;
      RunOn(g, Apply(g, w, a[0]), a[1..], b);
    }
  }

  /** Nothing is reported as published before it is. */
  ghost predicate Honest(w: World) {
    w.final.None? ==> w.fin != Some(Done) && forall k :: 0 <= k < |w.attempts| ==> !w.attempts[k].FinRenamed?
  }

  lemma StepHonest(g: Group, w: World, s: Step)
    requires Honest(w)
    ensures Honest(Apply(g, w, s))
  {
  }

  lemma {:induction false} RunHonest(g: Group, w: World, steps: seq<Step>)
    requires Honest(w)
    ensures Honest(Run(g, w, steps))
    decreases |steps|
  {
    if steps != [] {
      StepHonest(g, w, steps[0]);
      RunHonest(g, Apply(g, w, steps[0]), steps[1..]);
    }
  }

  /** Attempt a has just been given chunk c under the lease the store knows. */
  ghost predicate Holding(g: Group, w: World, c: nat, a: nat) {
    && c < |g.ranges| == |w.chunks| && a < |w.attempts| && w.attempts[a].DataGranted? && w.attempts[a].chunk == c
    && w.chunks[c] == Leased(w.attempts[a].lease)
  }

  /** Attempt a has the temp open under the lease the store knows, pos reached. */
  ghost predicate AtWork(g: Group, w: World, c: nat, a: nat, pos: nat) {
    && c < |g.ranges| == |w.chunks| && a < |w.attempts| && w.attempts[a].Writing? && w.attempts[a].chunk == c
    && w.chunks[c] == Leased(w.attempts[a].lease) && w.attempts[a].pos == pos
  }

  lemma HolderOpens(g: Group, w: World, c: nat, a: nat)
    requires GoodGroup(g) && Inv(g, w) && w.final.None? && Holding(g, w, c, a)
    ensures var w1 := Apply(g, w, Open(a, true));
            && Allowed(g, w, Open(a, true)) && Inv(g, w1) && w1.final.None? && w1.chunks == w.chunks
            && AtWork(g, w1, c, a, g.ranges[c].off)
  {
    StepInv(g, w, Open(a, true));
  }

  lemma HolderReports(g: Group, w: World, c: nat, a: nat)
    requires c < |g.ranges| && AtWork(g, w, c, a, End(g.ranges[c])) && w.final.None?
    ensures var e := Run(g, w, [Report(a)] + []);
            AllAllowed(g, w, [Report(a)] + []) && e.final.None? && e.chunks == w.chunks[c := Done]
  {
    RunNext(g, w, Report(a), []);
  }

  lemma HolderCopies(g: Group, w: World, c: nat, a: nat)
    requires GoodGroup(g) && c < |g.ranges| && Inv(g, w) && w.final.None? && AtWork(g, w, c, a, g.ranges[c].off) && g.ranges[c].len > 0
    ensures var w1 := Apply(g, w, Write(a, g.ranges[c].len));
            w1.final.None? && w1.chunks == w.chunks && AtWork(g, w1, c, a, End(g.ranges[c]))
  {
    assert AttemptOk(g, w.inodes, w.fin.Some?, w.attempts[a]);
    RangesInside(g, c);
  }

  /** The holder of a chunk opens the temp, copies its range and reports. */
  lemma HolderDelivers(g: Group, w: World, c: nat, a: nat) returns (steps: seq<Step>)
    requires GoodGroup(g) && Inv(g, w) && w.final.None? && Holding(g, w, c, a)
    ensures AllAllowed(g, w, steps)
    ensures Run(g, w, steps).final.None? && Run(g, w, steps).chunks == w.chunks[c := Done]
  {
    var len := g.ranges[c].len;
    var w1 := Apply(g, w, Open(a, true));
    HolderOpens(g, w, c, a);
    steps := [Report(a)] + [];
    if len == 0 {
      HolderReports(g, w1, c, a);
    } else {
      HolderCopies(g, w1, c, a);
      HolderReports(g, Apply(g, w1, Write(a, len)), c, a);
      RunNext(g, w1, Write(a, len), steps);
      steps := [Write(a, len)] + steps;
    }
    RunNext(g, w, Open(a, true), steps);
    steps := [Open(a, true)] + steps;
  }

  lemma QueuedCanBeDone(g: Group, w: World, c: nat) returns (steps: seq<Step>)
    requires GoodGroup(g) && Inv(g, w) && w.final.None? && c < |w.chunks| && w.chunks[c] == Queued
    ensures AllAllowed(g, w, steps)
    ensures Run(g, w, steps).final.None? && Run(g, w, steps).chunks == w.chunks[c := Done]
  {
    var w1 := Apply(g, w, Grant(c));
    StepInv(g, w, Grant(c));
    var rest := HolderDelivers(g, w1, c, |w.attempts|);
    RunNext(g, w, Grant(c), rest);
    steps := [Grant(c)] + rest;
  }

  /** Whoever had a chunk before, it can be granted afresh and delivered. */
  lemma ChunkCanBeDone(g: Group, w: World, c: nat) returns (steps: seq<Step>)
    requires GoodGroup(g) && Inv(g, w) && w.final.None? && c < |w.chunks| && w.chunks[c] != Done
    ensures AllAllowed(g, w, steps)
    ensures Run(g, w, steps).final.None? && Run(g, w, steps).chunks == w.chunks[c := Done]
  {
    if w.chunks[c] == Queued {
      steps := QueuedCanBeDone(g, w, c);
    } else {
      var w1 := Apply(g, w, Expire(c));
      StepInv(g, w, Expire(c));
      var rest := QueuedCanBeDone(g, w1, c);
      RunNext(g, w, Expire(c), rest);
      steps := [Expire(c)] + rest;
    }
  }

  lemma {:induction false} SomeNotDone(ts: seq<Task>) returns (c: nat)
    requires CountDone(ts) < |ts|
    ensures c < |ts| && ts[c] != Done
  {
    if ts[0] != Done {
      c := 0;
    } else {
      c := SomeNotDone(ts[1..]);
      c := c + 1;
    }
  }

  lemma {:induction false} AllCanBeDone(g: Group, w: World) returns (steps: seq<Step>)
    requires GoodGroup(g) && Inv(g, w) && w.final.None?
    ensures AllAllowed(g, w, steps)
    ensures Run(g, w, steps).final.None? && Run(g, w, steps).fin.Some?
    decreases |w.chunks| - CountDone(w.chunks)
  {
    CountBound(w.chunks);
    if CountDone(w.chunks) == |w.chunks| {
      steps := [];
    } else {
      var c := SomeNotDone(w.chunks);
      var a := ChunkCanBeDone(g, w, c);
      RunInv(g, w, a);
      CountUpdate(w.chunks, c, Done);
      CountBound(w.chunks[c := Done]);
      var b := AllCanBeDone(g, Run(g, w, a));
      RunOn(g, w, a, b);
      steps := a + b;
    }
  }

  /** A published file's finalize can be reported, by a repeat if need be. */
  lemma FinalizeCanEnd(g: Group, w: World) returns (steps: seq<Step>)
    requires GoodGroup(g) && Published(g, w)
    ensures AllAllowed(g, w, steps)
    ensures Run(g, w, steps).fin == Some(Done)
  {
    if w.fin.value == Done {
      steps := [];
    } else if w.fin.value == Queued {
      steps := QueuedFinalizeEnds(g, w);
    } else {
      var w1 := Apply(g, w, ExpireFin);
      StepInv(g, w, ExpireFin);
      var rest := QueuedFinalizeEnds(g, w1);
      RunNext(g, w, ExpireFin, rest);
      steps := [ExpireFin] + rest;
    }
  }

  lemma QueuedFinalizeEnds(g: Group, w: World) returns (steps: seq<Step>)
    requires GoodGroup(g) && Published(g, w) && w.fin == Some(Queued)
    ensures AllAllowed(g, w, steps)
    ensures Run(g, w, steps).fin == Some(Done)
  {
    var k := |w.attempts|;
    var w1 := Apply(g, w, GrantFin);
    StepInv(g, w, GrantFin);
    var w2 := Apply(g, w1, OpenFin(k));
    if w.temp.None? {
      RunNext(g, w2, ReportFin(k), []);
      RunNext(g, w1, OpenFin(k), [ReportFin(k)] + []);
      RunNext(g, w, GrantFin, [OpenFin(k)] + ([ReportFin(k)] + []));
      steps := [GrantFin] + ([OpenFin(k)] + ([ReportFin(k)] + []));
    } else {
      var w3 := Apply(g, w2, Rename(k));
      RunNext(g, w3, ReportFin(k), []);
      RunNext(g, w2, Rename(k), [ReportFin(k)] + []);
      RunNext(g, w1, OpenFin(k), [Rename(k)] + ([ReportFin(k)] + []));
      RunNext(g, w, GrantFin, [OpenFin(k)] + ([Rename(k)] + ([ReportFin(k)] + [])));
      steps := [GrantFin] + ([OpenFin(k)] + ([Rename(k)] + ([ReportFin(k)] + [])));
    }
  }

  /** Whatever was lost, stalled or repeated before, the group can still be
      completed, and then the source is under the final name. */
  lemma GroupCanComplete(g: Group, steps: seq<Step>) returns (more: seq<Step>)
    requires GoodGroup(g) && AllAllowed(g, Init(g), steps)
    ensures AllAllowed(g, Init(g), steps + more)
    ensures var w := Run(g, Init(g), steps + more);
            w.fin == Some(Done) && w.final.Some? && w.final.value < |w.inodes| && w.inodes[w.final.value] == g.src
  {
    var w := Run(g, Init(g), steps);
    InitInv(g);
    RunInv(g, Init(g), steps);
    RunHonest(g, Init(g), steps);
    var a := CanPublish(g, w);
    RunInv(g, w, a);
    var b := FinalizeCanEnd(g, Run(g, w, a));
    RunOn(g, w, a, b);
    more := a + b;
    RunOn(g, Init(g), steps, more);
    FinalStays(g, Run(g, w, a), b);
    PublishedIsExact(g, steps + more);
  }

  lemma CanPublish(g: Group, w: World) returns (steps: seq<Step>)
    requires GoodGroup(g) && Inv(g, w) && Honest(w)
    ensures AllAllowed(g, w, steps) && Run(g, w, steps).final.Some?
  {
    if w.final.Some? {
      steps := [];
    } else {
      var a := AllCanBeDone(g, w);
      RunInv(g, w, a);
      RunHonest(g, w, a);
      var w1 := Run(g, w, a);
      AllDoneHasTemp(g, w1);
      var b := TempGetsPublished(g, w1);
      RunOn(g, w, a, b);
      steps := a + b;
    }
  }

  /** A chunk is done only once the temp exists. */
  lemma AllDoneHasTemp(g: Group, w: World)
    requires GoodGroup(g) && Single(g, w) && w.final.None? && w.fin.Some?
    ensures w.temp.Some?
  {
    CountBound(w.chunks);
    assert w.chunks[0] == Done;
  }

  lemma {:induction false} FinalStays(g: Group, w: World, steps: seq<Step>)
    requires w.final.Some?
    ensures Run(g, w, steps).final.Some?
    decreases |steps|
  {
    if steps != [] { FinalStays(g, Apply(g, w, steps[0]), steps[1..]); }
  }

  /** A walk that meets the temp takes it away if and only if the walk is of another
      job or pass. */
  lemma SweepTakesIff(g: Group, w: World, job: nat, pass: nat)
    requires GoodGroup(g) && w.temp.Some?
    ensures Apply(g, w, Sweep(job, pass)).temp.None? <==> job != g.job || pass != g.pass
    ensures Apply(g, w, Sweep(job, pass)) == w.(temp := Apply(g, w, Sweep(job, pass)).temp)
  {
    T.FormattedTagMatchesIff(g.job, g.pass, g.shard, g.index, job, pass);
  }

  /** A result under a lease the store has given up is dropped: it ends the attempt
      and changes nothing else. */
  lemma StaleResultsDropped(g: Group, w: World, a: nat)
    requires a < |w.attempts|
    ensures var t, e := w.attempts[a], Apply(g, w, Report(a));
            t.Writing? && t.chunk < |w.chunks| && w.chunks[t.chunk] != Leased(t.lease) ==> e == w.(attempts := e.attempts)
    ensures var t, e := w.attempts[a], Apply(g, w, ReportFin(a));
            t.FinRenamed? && w.fin != Some(Leased(t.lease)) ==> e == w.(attempts := w.attempts[a := Ended])
    ensures Apply(g, w, Write(a, 0)) == w
  {
  }

  /** An attempt that has stopped does nothing any more. */
  lemma {:induction false} DeadStaysDead(g: Group, w: World, a: nat, steps: seq<Step>)
    requires a < |w.attempts|
    ensures var e := Run(g, Apply(g, w, Die(a)), steps); a < |e.attempts| && e.attempts[a] == Ended
  {
    EndedStays(g, Apply(g, w, Die(a)), a, steps);
  }

  lemma {:induction false} EndedStays(g: Group, w: World, a: nat, steps: seq<Step>)
    requires a < |w.attempts| && w.attempts[a] == Ended
    ensures var e := Run(g, w, steps); a < |e.attempts| && e.attempts[a] == Ended
    decreases |steps|
  {
    if steps != [] { EndedStays(g, Apply(g, w, steps[0]), a, steps[1..]); }
  }

  // ---------------------------------------------------------------------
  // A run with a late open
  // ---------------------------------------------------------------------

  lemma {:induction false} RunAppend(g: Group, w: World, a: seq<Step>, b: seq<Step>)
    ensures Run(g, w, a + b) == Run(g, Run(g, w, a), b)
    decreases |a|
  {
    if a == [] {
      assert a + b == b;
    } else {
      assert (a + b)[1..] == a[1..] + b;
      RunAppend(g, Apply(g, w, a[0]), a[1..], b);
    }
  }

  lemma Run2(g: Group, w: World, a: Step, b: Step)
    ensures Run(g, w, [a, b]) == Apply(g, Apply(g, w, a), b)
  {
    var w1 := Apply(g, w, a);
    assert [a, b][1..] == [b] && [b][1..] == [];
    assert Run(g, w, [a, b]) == Run(g, w1, [b]);
    assert Run(g, w1, [b]) == Run(g, Apply(g, w1, b), []);
  }

  const TwoBytes: Group := Group([7, 9], [Range(0, 1), Range(1, 1)], 1, 1, 1, 0)

  lemma GrantBoth()
    ensures Run(TwoBytes, Init(TwoBytes), [Grant(1), Expire(1)] + [Grant(0), Grant(1)])
            == World([], None, None, [Leased(1), Leased(2)], 0, None,
                     [DataGranted(1, 0), DataGranted(0, 1), DataGranted(1, 2)], 3)
  {
    var g := TwoBytes;
    var a, b := [Grant(1), Expire(1)], [Grant(0), Grant(1)];
    var w1 := World([], None, None, [Queued, Queued], 0, None, [DataGranted(1, 0)], 1);
    assert Init(g).chunks == [Queued, Queued];
    Run2(g, Init(g), a[0], a[1]);
    assert Run(g, Init(g), a) == w1;
    Run2(g, w1, b[0], b[1]);
    RunAppend(g, Init(g), a, b);
  }

  lemma SmallWrites()
    ensures Extended([], 2) == [0, 0]
    ensures WriteAt([0, 0], 0, [7]) == [7, 0] && WriteAt([7, 0], 1, [9]) == [7, 9]
  {
    Written([0, 0], 0, [7]);
    Written([7, 0], 1, [9]);
  }

  lemma FirstChunk(w: World)
    requires w == World([], None, None, [Leased(1), Leased(2)], 0, None,
                        [DataGranted(1, 0), DataGranted(0, 1), DataGranted(1, 2)], 3)
    ensures Run(TwoBytes, w, [Open(1, true), Write(1, 1)] + [Report(1), Open(2, true)])
            == World([[7, 0]], Some(0), None, [Done, Leased(2)], 1, None,
                     [DataGranted(1, 0), Ended, Writing(1, 2, 0, 1)], 3)
  {
    var g := TwoBytes;
    var a, b := [Open(1, true), Write(1, 1)], [Report(1), Open(2, true)];
    var w1 := World([[7, 0]], Some(0), None, [Leased(1), Leased(2)], 0, None,
                    [DataGranted(1, 0), Writing(0, 1, 0, 1), DataGranted(1, 2)], 3);
    Run2(g, w, a[0], a[1]);
    SmallWrites();
    assert g.src[0..1] == [7];
    assert Run(g, w, a) == w1;
    Run2(g, w1, b[0], b[1]);
    RunAppend(g, w, a, b);
  }

  lemma Assemble()
    ensures Run(TwoBytes, Init(TwoBytes),
                ([Grant(1), Expire(1)] + [Grant(0), Grant(1)]) + ([Open(1, true), Write(1, 1)] + [Report(1), Open(2, true)]))
            == World([[7, 0]], Some(0), None, [Done, Leased(2)], 1, None,
                     [DataGranted(1, 0), Ended, Writing(1, 2, 0, 1)], 3)
  {
    GrantBoth();
    FirstChunk(Run(TwoBytes, Init(TwoBytes), [Grant(1), Expire(1)] + [Grant(0), Grant(1)]));
    RunAppend(TwoBytes, Init(TwoBytes), [Grant(1), Expire(1)] + [Grant(0), Grant(1)],
              [Open(1, true), Write(1, 1)] + [Report(1), Open(2, true)]);
  }

  lemma Publish(w: World)
    requires w == World([[7, 0]], Some(0), None, [Done, Leased(2)], 1, None,
                        [DataGranted(1, 0), Ended, Writing(1, 2, 0, 1)], 3)
    ensures Run(TwoBytes, w, [Write(2, 1), Report(2)] + [GrantFin, OpenFin(3)] + [Rename(3), ExpireFin])
            == World([[7, 9]], None, Some(0), [Done, Done], 2, Some(Queued),
                     [DataGranted(1, 0), Ended, Ended, FinRenamed(3)], 4)
  {
    var g := TwoBytes;
    var a, b, c := [Write(2, 1), Report(2)], [GrantFin, OpenFin(3)], [Rename(3), ExpireFin];
    var w1 := World([[7, 9]], Some(0), None, [Done, Done], 2, Some(Queued), [DataGranted(1, 0), Ended, Ended], 3);
    var w2 := World([[7, 9]], Some(0), None, [Done, Done], 2, Some(Leased(3)),
                    [DataGranted(1, 0), Ended, Ended, FinOpened(3)], 4);
    Run2(g, w, a[0], a[1]);
    SmallWrites();
    assert g.src[1..2] == [9];
    assert Run(g, w, a) == w1;
    Run2(g, w1, b[0], b[1]);
    assert Run(g, w1, b) == w2;
    Run2(g, w2, c[0], c[1]);
    RunAppend(g, w, a, b);
    RunAppend(g, w, a + b, c);
  }

  /** The second chunk is granted twice and its first holder stalls before
      opening the temp; the file is assembled and published; the finalize's result
      is lost and its lease lapses. */
  function LateRun(): seq<Step> {
    (([Grant(1), Expire(1)] + [Grant(0), Grant(1)]) + ([Open(1, true), Write(1, 1)] + [Report(1), Open(2, true)]))
    + ([Write(2, 1), Report(2)] + [GrantFin, OpenFin(3)] + [Rename(3), ExpireFin])
  }

  /** If only then the stalled holder opens the temp, a second finalize renames a
      file with a hole into place. */
  lemma LateOpenCorrupts()
    ensures GoodGroup(TwoBytes) && !Wrong(TwoBytes, Run(TwoBytes, Init(TwoBytes), LateRun()))
    ensures CanGoWrong(TwoBytes, Apply(TwoBytes, Run(TwoBytes, Init(TwoBytes), LateRun()), Open(0, true)))
  {
    var g := TwoBytes;
    var x := ([Grant(1), Expire(1)] + [Grant(0), Grant(1)]) + ([Open(1, true), Write(1, 1)] + [Report(1), Open(2, true)]);
    var y := [Write(2, 1), Report(2)] + [GrantFin, OpenFin(3)] + [Rename(3), ExpireFin];
    Assemble();
    Publish(Run(g, Init(g), x));
    RunAppend(g, Init(g), x, y);
    var w := Run(g, Init(g), x + y);
    assert Published(g, w);
    assert Opened(g, w, 1, true) == [];
    OpenGoesWrongIff(g, w, 0, true);
  }
}
