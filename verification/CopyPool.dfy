/** The copy pool (agent/src/copy.c, agent/src/poolsize.c, agent/src/main.c
    worker_main): a bounded queue with two condition variables, a pending counter
    per open directory, and threads that crawl, copy or do both. One step is one
    critical section; a signal wakes one sleeper of the schedule's choice, and any
    sleeper may wake for no reason. */
module CopyPool {

  /** Walkers crawl first, generalists copy first, drainers only copy. */
  datatype Role = Walker | Generalist | Drainer

  datatype Act =
    | Free                // between critical sections
    | Submit              // cp_submit: counted in dp, cq_mu not taken yet
    | FullAsleep          // cp_submit: waiting for cq_not_full
    | FullWoken
    | WaitAsleep          // dpend_wait
    | WaitWoken
    | EmptyAsleep         // a pop waiting for cq_not_empty
    | EmptyWoken
    | Copy(dir: nat)      // run_copy_task

  /** dirs: the directories this thread has open, innermost last. */
  datatype Thread = Thread(role: Role, dirs: seq<nat>, act: Act)

  datatype Pool = Pool(
    threads: seq<Thread>,
    queue: seq<nat>,      // queued tasks, each named by its directory
    cap: nat,
    n: seq<nat>,          // dp.n, by directory, for every directory opened so far
    applied: set<nat>     // directories whose metadata has been applied
  )

  datatype Step =
    | Open(i: nat)                  // a shard or a subdirectory is entered
    | Add(i: nat)                   // cp_submit: dpend_add
    | Enqueue(i: nat, wake: nat)    // cp_submit: the queue section
    | EndDir(i: nat)                // dpend_wait, and the metadata after it
    | Pop(i: nat, wake: nat)        // the pops' sections
    | Timeout(i: nat, wake: nat)    // cq_pop_timed gives up
    | Done(i: nat, wake: nat)       // the copy ended: dpend_done
    | Spurious(i: nat)

  /** What a sleeper waits for. */
  datatype Cond = NotFull | NotEmpty | DirDone(d: nat)

  // ---------------------------------------------------------------------
  // Behaviour
  // ---------------------------------------------------------------------

  function Top(t: Thread): nat {
    if t.dirs == [] then 0 else t.dirs[|t.dirs| - 1]
  }

  predicate SleepsOn(t: Thread, c: Cond) {
    match c
    case NotFull => t.act == FullAsleep
    case NotEmpty => t.act == EmptyAsleep
    case DirDone(d) => t.act == WaitAsleep && Top(t) == d
  }

  function Wake(t: Thread): Thread {
    match t.act
    case FullAsleep => t.(act := FullWoken)
    case WaitAsleep => t.(act := WaitWoken)
    case EmptyAsleep => t.(act := EmptyWoken)
    case _ => t
  }

  /** The schedule names a sleeper if there is one. */
  predicate CanWake(ts: seq<Thread>, c: Cond, wake: nat) {
    (exists k :: 0 <= k < |ts| && SleepsOn(ts[k], c)) ==> wake < |ts| && SleepsOn(ts[wake], c)
  }

  function Signal(ts: seq<Thread>, c: Cond, wake: nat): seq<Thread> {
    if wake < |ts| && SleepsOn(ts[wake], c) then ts[wake := Wake(ts[wake])] else ts
  }

  function SetAct(ts: seq<Thread>, i: nat, a: Act): seq<Thread>
    requires i < |ts|
  {
    ts[i := ts[i].(act := a)]
  }

  /** cq_take_locked. */
  function Take(s: Pool, i: nat, wake: nat): Pool
    requires i < |s.threads| && s.queue != []
  {
    var ts := SetAct(s.threads, i, Copy(s.queue[0]));
    if CanWake(ts, NotFull, wake) then s.(threads := Signal(ts, NotFull, wake), queue := s.queue[1..]) else s
  }

  function Enqueued(s: Pool, i: nat, wake: nat): Pool
    requires i < |s.threads|
  {
    var ts := SetAct(s.threads, i, Free);
    if |s.queue| >= s.cap then s.(threads := SetAct(s.threads, i, FullAsleep))
    else if CanWake(ts, NotEmpty, wake) then
      s.(threads := Signal(ts, NotEmpty, wake), queue := s.queue + [Top(s.threads[i])])
    else s
  }

  function Ended(s: Pool, i: nat): Pool
    requires i < |s.threads| && s.threads[i].dirs != []
  {
    var t := s.threads[i];
    if Top(t) < |s.n| && s.n[Top(t)] == 0 then
      s.(threads := s.threads[i := t.(dirs := t.dirs[..|t.dirs| - 1], act := Free)], applied := s.applied + {Top(t)})
    else s.(threads := SetAct(s.threads, i, WaitAsleep))
  }

  function Finished(s: Pool, i: nat, wake: nat): Pool
    requires i < |s.threads| && s.threads[i].act.Copy?
  {
    var d := s.threads[i].act.dir;
    var ts := SetAct(s.threads, i, Free);
    if d < |s.n| && s.n[d] > 0 then
      if s.n[d] > 1 then s.(threads := ts, n := s.n[d := s.n[d] - 1])
      else if CanWake(ts, DirDone(d), wake) then s.(threads := Signal(ts, DirDone(d), wake), n := s.n[d := 0])
      else s
    else s
  }

  function Apply(s: Pool, step: Step): Pool {
    if step.i >= |s.threads| then s
    else
      var i, t := step.i, s.threads[step.i];
      match step
      case Open(_) =>
        if t.act == Free && t.role != Drainer
        then s.(threads := s.threads[i := t.(dirs := t.dirs + [|s.n|])], n := s.n + [0]) else s
      case Add(_) =>
        if t.act == Free && t.dirs != [] && Top(t) < |s.n|
        then s.(threads := SetAct(s.threads, i, Submit), n := s.n[Top(t) := s.n[Top(t)] + 1]) else s
      case Enqueue(_, wake) => if t.act == Submit || t.act == FullWoken then Enqueued(s, i, wake) else s
      case EndDir(_) => if t.dirs != [] && (t.act == Free || t.act == WaitWoken) then Ended(s, i) else s
      case Pop(_, wake) =>
        if t.dirs == [] && (t.act == Free || t.act == EmptyWoken) then
          if s.queue != [] then Take(s, i, wake)
          else if t.role == Walker then s
          else s.(threads := SetAct(s.threads, i, EmptyAsleep))
        else s
      case Timeout(_, wake) =>
        if t.role == Generalist && (t.act == EmptyAsleep || t.act == EmptyWoken) then
          if s.queue != [] then Take(s, i, wake) else s.(threads := SetAct(s.threads, i, Free))
        else s
      case Done(_, wake) => if t.act.Copy? then Finished(s, i, wake) else s
      case Spurious(_) => s.(threads := s.threads[i := Wake(t)])
  }

  function Run(s: Pool, steps: seq<Step>): Pool
    decreases |steps|
  {
    if steps == [] then s else Run(Apply(s, steps[0]), steps[1..])
  }

  // ---------------------------------------------------------------------
  // Counting threads
  // ---------------------------------------------------------------------

  /** What is counted: threads that submit or run a task of d, threads that have
      d open, threads woken for room or for work. */
  datatype What = Carrying(d: nat) | Opened(d: nat) | RoomWoken | WorkWoken

  predicate Is(t: Thread, w: What) {
    match w
    case Carrying(d) =>
      || ((t.act == Submit || t.act == FullAsleep || t.act == FullWoken) && Top(t) == d)
      || (t.act.Copy? && t.act.dir == d)
    case Opened(d) => d in t.dirs
    case RoomWoken => t.act == FullWoken
    case WorkWoken => t.act == EmptyWoken
  }

  function One(b: bool): nat { if b then 1 else 0 }

  function Count(ts: seq<Thread>, w: What): nat {
    if ts == [] then 0 else One(Is(ts[0], w)) + Count(ts[1..], w)
  }

  lemma {:induction false} CountUpdate(ts: seq<Thread>, i: nat, t: Thread, w: What)
    requires i < |ts|
    ensures Count(ts[i := t], w) + One(Is(ts[i], w)) == Count(ts, w) + One(Is(t, w))
    ensures One(Is(ts[i], w)) <= Count(ts, w)
  {
    if i == 0 {
      assert ts[0 := t][1..] == ts[1..];
    } else {
      assert ts[i := t][1..] == ts[1..][i - 1 := t];
      CountUpdate(ts[1..], i - 1, t, w);
    }
  }

  lemma {:induction false} CountPair(ts: seq<Thread>, i: nat, j: nat, w: What)
    requires i < j < |ts| && Is(ts[i], w) && Is(ts[j], w)
    ensures Count(ts, w) >= 2
  {
    if i == 0 {
      CountUpdate(ts[1..], j - 1, ts[j], w);
    } else {
      CountPair(ts[1..], i - 1, j - 1, w);
    }
  }

  lemma {:induction false} CountZero(ts: seq<Thread>, w: What)
    ensures Count(ts, w) == 0 <==> forall k :: 0 <= k < |ts| ==> !Is(ts[k], w)
  {
    if ts != [] {
      CountZero(ts[1..], w);
      assert forall k :: 1 <= k < |ts| ==> ts[k] == ts[1..][k - 1];
    }
  }

  function Queued(queue: seq<nat>, d: nat): nat { multiset(queue)[d] }

  // ---------------------------------------------------------------------
  // Invariant
  // ---------------------------------------------------------------------

  predicate InSubmit(t: Thread) { t.act == Submit || t.act == FullAsleep || t.act == FullWoken }
  predicate InWait(t: Thread) { t.act == WaitAsleep || t.act == WaitWoken }
  predicate InPop(t: Thread) { t.act == EmptyAsleep || t.act == EmptyWoken || t.act.Copy? }

  ghost predicate ThreadOk(t: Thread, dirs: nat) {
    && (InSubmit(t) || InWait(t) ==> t.dirs != [])
    && (InPop(t) || t.role == Drainer ==> t.dirs == [])
    && (t.act.Copy? ==> t.act.dir < dirs)
    && (forall a :: 0 <= a < |t.dirs| ==> t.dirs[a] < dirs)
    && (forall a, b :: 0 <= a < b < |t.dirs| ==> t.dirs[a] < t.dirs[b])
  }

  ghost predicate Shape(s: Pool) {
    && 0 < s.cap && |s.queue| <= s.cap
    && (forall k :: 0 <= k < |s.threads| ==> ThreadOk(s.threads[k], |s.n|))
    && (forall k :: 0 <= k < |s.queue| ==> s.queue[k] < |s.n|)
    && (forall d :: d in s.applied ==> d < |s.n|)
  }

  /** dp.n is the number of the directory's tasks in flight. */
  ghost predicate Counted(s: Pool) {
    forall d :: 0 <= d < |s.n| ==> s.n[d] == Count(s.threads, Carrying(d)) + Queued(s.queue, d)
  }

  /** A directory is open in one thread, and closed for good once finished. */
  ghost predicate Owned(s: Pool) {
    forall d :: 0 <= d < |s.n| ==>
      Count(s.threads, Opened(d)) + One(d in s.applied) <= 1 && (d in s.applied ==> s.n[d] == 0)
  }

  /** While a thread sleeps for work, every queued task has a woken taker; while
      one sleeps for room, every free place has a woken submitter; and who waits
      for a directory waits for something. */
  ghost predicate NoneForgotten(s: Pool) {
    && (forall k :: 0 <= k < |s.threads| && s.threads[k].act == EmptyAsleep ==> |s.queue| <= Count(s.threads, WorkWoken))
    && (forall k :: 0 <= k < |s.threads| && s.threads[k].act == FullAsleep ==> s.cap - |s.queue| <= Count(s.threads, RoomWoken))
    && (forall k :: 0 <= k < |s.threads| && s.threads[k].act == WaitAsleep ==>
          Top(s.threads[k]) < |s.n| && s.n[Top(s.threads[k])] > 0)
  }

  ghost predicate Inv(s: Pool) {
    Shape(s) && Counted(s) && Owned(s) && NoneForgotten(s)
  }

  /** One thread's act changes and, perhaps, a sleeper is woken. */
  lemma Changed(ts: seq<Thread>, i: nat, a: Act, c: Cond, wake: nat, w: What)
    requires i < |ts|
    ensures var ts1 := SetAct(ts, i, a);
            var hit := One(wake < |ts| && SleepsOn(ts1[wake], c));
            && Count(ts1, w) + One(Is(ts[i], w)) == Count(ts, w) + One(Is(ts1[i], w))
            && One(Is(ts[i], w)) <= Count(ts, w)
            && Count(Signal(ts1, c, wake), w) == Count(ts1, w) +
                 (if (w.RoomWoken? && c.NotFull?) || (w.WorkWoken? && c.NotEmpty?) then hit else 0)
  {
    var ts1 := SetAct(ts, i, a);
    CountUpdate(ts, i, ts1[i], w);
    if wake < |ts| {
      CountUpdate(ts1, wake, Wake(ts1[wake]), w);
    }
  }

  lemma ChangedAct(ts: seq<Thread>, i: nat, a: Act, w: What)
    requires i < |ts|
    ensures Count(SetAct(ts, i, a), w) + One(Is(ts[i], w)) == Count(ts, w) + One(Is(ts[i].(act := a), w))
  {
    CountUpdate(ts, i, ts[i].(act := a), w);
  }

  // ---------------------------------------------------------------------
  // Steps
  // ---------------------------------------------------------------------

  ghost predicate ThreadsOk(ts: seq<Thread>, dirs: nat) {
    forall k :: 0 <= k < |ts| ==> ThreadOk(ts[k], dirs)
  }

  lemma ActShape(ts: seq<Thread>, i: nat, a: Act, c: Cond, wake: nat, dirs: nat)
    requires i < |ts| && ThreadsOk(ts, dirs) && ThreadOk(ts[i].(act := a), dirs)
    ensures ThreadsOk(SetAct(ts, i, a), dirs) && ThreadsOk(Signal(SetAct(ts, i, a), c, wake), dirs)
  {
  }

  lemma ActOwned(s: Pool, s': Pool, i: nat, a: Act, c: Cond, wake: nat)
    requires Owned(s) && i < |s.threads| && s'.applied == s.applied && |s'.n| == |s.n|
    requires s'.threads == SetAct(s.threads, i, a) || s'.threads == Signal(SetAct(s.threads, i, a), c, wake)
    requires forall d :: d in s.applied && d < |s.n| ==> s'.n[d] == 0
    ensures Owned(s')
  {
    forall d | 0 <= d < |s.n| ensures Count(s'.threads, Opened(d)) == Count(s.threads, Opened(d)) {
      Changed(s.threads, i, a, c, wake, Opened(d));
    }
  }

  /** The sleepers after a change were sleepers before it. */
  lemma StillAsleep(ts: seq<Thread>, i: nat, a: Act, c: Cond, wake: nat)
    requires i < |ts|
    ensures var ts' := Signal(SetAct(ts, i, a), c, wake);
            && |ts'| == |ts|
            && (forall k :: 0 <= k < |ts| && k != i && ts'[k].act in {EmptyAsleep, FullAsleep, WaitAsleep} ==> ts'[k] == ts[k])
            && (ts'[i].act in {EmptyAsleep, FullAsleep, WaitAsleep} ==> ts'[i] == ts[i].(act := a))
            && (a == Free || a.Copy? ==> ts'[i].act == a)
  {
  }

  lemma EnqueueCounted(s: Pool, i: nat, wake: nat)
    requires Inv(s) && i < |s.threads| && (s.threads[i].act == Submit || s.threads[i].act == FullWoken)
    requires |s.queue| < s.cap && CanWake(SetAct(s.threads, i, Free), NotEmpty, wake)
    ensures Counted(Enqueued(s, i, wake))
  {
    var s' := Enqueued(s, i, wake);
    forall d | 0 <= d < |s'.n| ensures s'.n[d] == Count(s'.threads, Carrying(d)) + Queued(s'.queue, d) {
      Changed(s.threads, i, Free, NotEmpty, wake, Carrying(d));
    }
  }

  lemma EnqueueWakes(s: Pool, i: nat, wake: nat)
    requires Inv(s) && i < |s.threads| && (s.threads[i].act == Submit || s.threads[i].act == FullWoken)
    requires |s.queue| < s.cap && CanWake(SetAct(s.threads, i, Free), NotEmpty, wake)
    ensures NoneForgotten(Enqueued(s, i, wake))
  {
    var ts1 := SetAct(s.threads, i, Free);
    var s' := Enqueued(s, i, wake);
    StillAsleep(s.threads, i, Free, NotEmpty, wake);
    Changed(s.threads, i, Free, NotEmpty, wake, WorkWoken);
    Changed(s.threads, i, Free, NotEmpty, wake, RoomWoken);
    forall k | 0 <= k < |s'.threads| && s'.threads[k].act == EmptyAsleep ensures |s'.queue| <= Count(s'.threads, WorkWoken) {
      assert SleepsOn(ts1[k], NotEmpty);
    }
  }

  lemma EnqueueInv(s: Pool, i: nat, wake: nat)
    requires Inv(s) && i < |s.threads| && (s.threads[i].act == Submit || s.threads[i].act == FullWoken)
    requires |s.queue| < s.cap && CanWake(SetAct(s.threads, i, Free), NotEmpty, wake)
    ensures Inv(Enqueued(s, i, wake))
  {
    EnqueueCounted(s, i, wake);
    EnqueueWakes(s, i, wake);
    ActShape(s.threads, i, Free, NotEmpty, wake, |s.n|);
    ActOwned(s, Enqueued(s, i, wake), i, Free, NotEmpty, wake);
    assert s.threads[i].dirs != [] && Top(s.threads[i]) < |s.n|;
  }

  lemma TakeCounted(s: Pool, i: nat, wake: nat)
    requires Inv(s) && i < |s.threads| && s.queue != [] && s.threads[i].dirs == []
    requires s.threads[i].act in {Free, EmptyWoken, EmptyAsleep}
    ensures Counted(Take(s, i, wake))
  {
    var d0 := s.queue[0];
    var s' := Take(s, i, wake);
    assert s.queue == [d0] + s.queue[1..];
    forall d | 0 <= d < |s'.n| ensures s'.n[d] == Count(s'.threads, Carrying(d)) + Queued(s'.queue, d) {
      Changed(s.threads, i, Copy(d0), NotFull, wake, Carrying(d));
    }
  }

  lemma TakeWakes(s: Pool, i: nat, wake: nat)
    requires Inv(s) && i < |s.threads| && s.queue != [] && s.threads[i].dirs == []
    requires s.threads[i].act in {Free, EmptyWoken, EmptyAsleep}
    ensures NoneForgotten(Take(s, i, wake))
  {
    var d0 := s.queue[0];
    var ts1 := SetAct(s.threads, i, Copy(d0));
    var s' := Take(s, i, wake);
    if CanWake(ts1, NotFull, wake) {
      StillAsleep(s.threads, i, Copy(d0), NotFull, wake);
      Changed(s.threads, i, Copy(d0), NotFull, wake, WorkWoken);
      Changed(s.threads, i, Copy(d0), NotFull, wake, RoomWoken);
      forall k | 0 <= k < |s'.threads| && s'.threads[k].act == FullAsleep
        ensures s'.cap - |s'.queue| <= Count(s'.threads, RoomWoken)
      {
        assert SleepsOn(ts1[k], NotFull);
      }
    }
  }

  lemma TakeInv(s: Pool, i: nat, wake: nat)
    requires Inv(s) && i < |s.threads| && s.queue != [] && s.threads[i].dirs == []
    requires s.threads[i].act in {Free, EmptyWoken, EmptyAsleep}
    ensures Inv(Take(s, i, wake))
  {
    TakeCounted(s, i, wake);
    TakeWakes(s, i, wake);
    if CanWake(SetAct(s.threads, i, Copy(s.queue[0])), NotFull, wake) {
      ActShape(s.threads, i, Copy(s.queue[0]), NotFull, wake, |s.n|);
      ActOwned(s, Take(s, i, wake), i, Copy(s.queue[0]), NotFull, wake);
    }
  }

  /** A step that touches one thread's act and, at most, raises counters. */
  ghost predicate Touched(s: Pool, s': Pool, i: nat, a: Act) {
    && i < |s.threads| && s'.threads == SetAct(s.threads, i, a)
    && s'.queue == s.queue && s'.cap == s.cap && s'.applied == s.applied && |s'.n| == |s.n|
    && (forall d :: 0 <= d < |s.n| ==>
          s'.n[d] == s.n[d] + One(Is(s'.threads[i], Carrying(d))) - One(Is(s.threads[i], Carrying(d))))
  }

  lemma TouchedCounted(s: Pool, s': Pool, i: nat, a: Act)
    requires Counted(s) && Touched(s, s', i, a)
    ensures Counted(s')
  {
    forall d | 0 <= d < |s'.n| ensures s'.n[d] == Count(s'.threads, Carrying(d)) + Queued(s'.queue, d) {
      ChangedAct(s.threads, i, a, Carrying(d));
    }
  }

  lemma TouchedWakes(s: Pool, s': Pool, i: nat, a: Act)
    requires NoneForgotten(s) && Touched(s, s', i, a)
    requires forall d :: 0 <= d < |s.n| ==> s.n[d] <= s'.n[d]
    requires s.threads[i].act == EmptyWoken || a == EmptyAsleep ==> s.queue == []
    requires s.threads[i].act == FullWoken || a == FullAsleep ==> |s.queue| >= s.cap
    requires a == WaitAsleep ==> Top(s.threads[i]) < |s.n| && s.n[Top(s.threads[i])] > 0
    ensures NoneForgotten(s')
  {
    ChangedAct(s.threads, i, a, WorkWoken);
    ChangedAct(s.threads, i, a, RoomWoken);
  }

  lemma TouchedInv(s: Pool, s': Pool, i: nat, a: Act)
    requires Inv(s) && Touched(s, s', i, a) && ThreadOk(s'.threads[i], |s.n|)
    requires forall d :: 0 <= d < |s.n| ==> s.n[d] <= s'.n[d]
    requires forall d :: d in s.applied && d < |s.n| ==> s'.n[d] == 0
    requires s.threads[i].act == EmptyWoken || a == EmptyAsleep ==> s.queue == []
    requires s.threads[i].act == FullWoken || a == FullAsleep ==> |s.queue| >= s.cap
    requires a == WaitAsleep ==> Top(s.threads[i]) < |s.n| && s.n[Top(s.threads[i])] > 0
    ensures Inv(s')
  {
    TouchedCounted(s, s', i, a);
    TouchedWakes(s, s', i, a);
    ActShape(s.threads, i, a, NotEmpty, |s.threads|, |s.n|);
    ActOwned(s, s', i, a, NotEmpty, 0);
  }

  lemma EnqueueFullInv(s: Pool, i: nat, wake: nat)
    requires Inv(s) && i < |s.threads| && (s.threads[i].act == Submit || s.threads[i].act == FullWoken)
    requires |s.queue| >= s.cap
    ensures Inv(Enqueued(s, i, wake))
  {
    assert ThreadOk(s.threads[i], |s.n|);
    TouchedInv(s, Enqueued(s, i, wake), i, FullAsleep);
  }

  /** A thread without tasks goes to sleep on an empty queue, or gives up. */
  lemma IdleInv(s: Pool, i: nat, a: Act)
    requires Inv(s) && i < |s.threads| && s.queue == [] && s.threads[i].dirs == []
    requires s.threads[i].act in {Free, EmptyWoken, EmptyAsleep} && a in {Free, EmptyAsleep}
    ensures Inv(s.(threads := SetAct(s.threads, i, a)))
  {
    assert ThreadOk(s.threads[i], |s.n|);
    TouchedInv(s, s.(threads := SetAct(s.threads, i, a)), i, a);
  }

  /** dpend_add by the thread that has the directory open. */
  lemma AddInv(s: Pool, i: nat)
    requires Inv(s) && i < |s.threads| && s.threads[i].act == Free && s.threads[i].dirs != [] && Top(s.threads[i]) < |s.n|
    ensures Inv(Apply(s, Add(i)))
  {
    OpenNotApplied(s, i);
    assert ThreadOk(s.threads[i], |s.n|);
    AddTouches(s, i);
    TouchedInv(s, Apply(s, Add(i)), i, Submit);
  }

  lemma AddTouches(s: Pool, i: nat)
    requires i < |s.threads| && s.threads[i].act == Free && s.threads[i].dirs != [] && Top(s.threads[i]) < |s.n|
    ensures Touched(s, Apply(s, Add(i)), i, Submit)
    ensures forall d :: 0 <= d < |s.n| && d != Top(s.threads[i]) ==> Apply(s, Add(i)).n[d] == s.n[d]
    ensures forall d :: 0 <= d < |s.n| ==> s.n[d] <= Apply(s, Add(i)).n[d]
  {
  }

  lemma OpenNotApplied(s: Pool, i: nat)
    requires Owned(s) && Shape(s) && i < |s.threads| && s.threads[i].dirs != []
    ensures Top(s.threads[i]) < |s.n| && Top(s.threads[i]) !in s.applied
    ensures Count(s.threads, Opened(Top(s.threads[i]))) == 1
  {
    var d := Top(s.threads[i]);
    assert ThreadOk(s.threads[i], |s.n|) && d in s.threads[i].dirs;
    CountUpdate(s.threads, i, s.threads[i], Opened(d));
  }

  lemma SpuriousWakes(s: Pool, i: nat)
    requires NoneForgotten(s) && i < |s.threads|
    ensures NoneForgotten(s.(threads := SetAct(s.threads, i, Wake(s.threads[i]).act)))
  {
    ChangedAct(s.threads, i, Wake(s.threads[i]).act, WorkWoken);
    ChangedAct(s.threads, i, Wake(s.threads[i]).act, RoomWoken);
  }

  lemma SpuriousInv(s: Pool, i: nat)
    requires Inv(s) && i < |s.threads|
    ensures Inv(Apply(s, Spurious(i)))
  {
    var a := Wake(s.threads[i]).act;
    var s' := s.(threads := SetAct(s.threads, i, a));
    assert s' == Apply(s, Spurious(i));
    TouchedCounted(s, s', i, a);
    SpuriousWakes(s, i);
    ActShape(s.threads, i, a, NotEmpty, |s.threads|, |s.n|);
    ActOwned(s, s', i, a, NotEmpty, 0);
  }

  /** dpend_wait goes to sleep only for copies that are still in flight. */
  lemma WaitInv(s: Pool, i: nat)
    requires Inv(s) && i < |s.threads| && s.threads[i].dirs != []
    requires s.threads[i].act == Free || s.threads[i].act == WaitWoken
    requires Top(s.threads[i]) < |s.n| && s.n[Top(s.threads[i])] > 0
    ensures Inv(s.(threads := SetAct(s.threads, i, WaitAsleep)))
  {
    assert ThreadOk(s.threads[i], |s.n|);
    TouchedInv(s, s.(threads := SetAct(s.threads, i, WaitAsleep)), i, WaitAsleep);
  }

  /** A thread changes its directories, not carrying any task. */
  lemma RestackCounts(s: Pool, i: nat, t: Thread)
    requires i < |s.threads| && t.act == Free && (s.threads[i].act == Free || s.threads[i].act == WaitWoken)
    ensures forall d: nat :: Count(s.threads[i := t], Carrying(d)) == Count(s.threads, Carrying(d))
    ensures Count(s.threads[i := t], WorkWoken) == Count(s.threads, WorkWoken)
    ensures Count(s.threads[i := t], RoomWoken) == Count(s.threads, RoomWoken)
  {
    forall d: nat ensures Count(s.threads[i := t], Carrying(d)) == Count(s.threads, Carrying(d)) {
      CountUpdate(s.threads, i, t, Carrying(d));
    }
    CountUpdate(s.threads, i, t, WorkWoken);
    CountUpdate(s.threads, i, t, RoomWoken);
  }

  lemma CloseOwned(s: Pool, i: nat)
    requires Shape(s) && Owned(s) && i < |s.threads| && s.threads[i].dirs != []
    requires Top(s.threads[i]) < |s.n| && s.n[Top(s.threads[i])] == 0
    ensures Owned(Ended(s, i))
  {
    var s' := Ended(s, i);
    var t, d0 := s.threads[i], Top(s.threads[i]);
    OpenNotApplied(s, i);
    assert ThreadOk(t, |s.n|);
    var left := t.dirs[..|t.dirs| - 1];
    assert t.dirs == left + [d0];
    assert d0 !in left;
    forall d | 0 <= d < |s'.n|
      ensures Count(s'.threads, Opened(d)) + One(d in s'.applied) <= 1 && (d in s'.applied ==> s'.n[d] == 0)
    {
      CountUpdate(s.threads, i, s'.threads[i], Opened(d));
      assert d in t.dirs <==> d in left || d == d0;
    }
  }

  lemma CloseInv(s: Pool, i: nat)
    requires Inv(s) && i < |s.threads| && s.threads[i].dirs != []
    requires s.threads[i].act == Free || s.threads[i].act == WaitWoken
    requires Top(s.threads[i]) < |s.n| && s.n[Top(s.threads[i])] == 0
    ensures Inv(Ended(s, i))
  {
    CloseOwned(s, i);
    var s' := Ended(s, i);
    RestackCounts(s, i, s'.threads[i]);
    assert ThreadOk(s.threads[i], |s.n|);
    assert ThreadOk(s'.threads[i], |s.n|);
    assert Shape(s') && Counted(s');
  }

  lemma OpenOwned(s: Pool, i: nat)
    requires Inv(s) && i < |s.threads| && s.threads[i].act == Free && s.threads[i].role != Drainer
    ensures Owned(Apply(s, Open(i)))
  {
    var s' := Apply(s, Open(i));
    var d0 := |s.n|;
    forall d | 0 <= d < |s'.n|
      ensures Count(s'.threads, Opened(d)) + One(d in s'.applied) <= 1 && (d in s'.applied ==> s'.n[d] == 0)
    {
      CountUpdate(s.threads, i, s'.threads[i], Opened(d));
      assert d in s'.threads[i].dirs <==> d in s.threads[i].dirs || d == d0;
      if d == d0 { NobodyHas(s, d0); }
    }
  }

  /** A directory number not given out yet appears nowhere. */
  lemma NobodyHas(s: Pool, d: nat)
    requires Shape(s) && d >= |s.n|
    ensures Count(s.threads, Opened(d)) == 0 && Count(s.threads, Carrying(d)) == 0 && Queued(s.queue, d) == 0
    ensures d !in s.applied
  {
    forall k | 0 <= k < |s.threads| ensures !Is(s.threads[k], Opened(d)) && !Is(s.threads[k], Carrying(d)) {
      assert ThreadOk(s.threads[k], |s.n|);
    }
    CountZero(s.threads, Opened(d));
    CountZero(s.threads, Carrying(d));
  }

  lemma OpenShape(s: Pool, i: nat)
    requires Shape(s) && i < |s.threads| && s.threads[i].act == Free && s.threads[i].role != Drainer
    ensures Shape(Apply(s, Open(i)))
  {
    var s' := Apply(s, Open(i));
    forall k | 0 <= k < |s'.threads| ensures ThreadOk(s'.threads[k], |s'.n|) {
      assert ThreadOk(s.threads[k], |s.n|);
    }
  }

  lemma OpenInv(s: Pool, i: nat)
    requires Inv(s) && i < |s.threads| && s.threads[i].act == Free && s.threads[i].role != Drainer
    ensures Inv(Apply(s, Open(i)))
  {
    OpenOwned(s, i);
    OpenShape(s, i);
    var s' := Apply(s, Open(i));
    RestackCounts(s, i, s'.threads[i]);
    NobodyHas(s, |s.n|);
    assert Counted(s');
    OpenWakes(s, i);
  }

  lemma OpenWakes(s: Pool, i: nat)
    requires NoneForgotten(s) && i < |s.threads| && s.threads[i].act == Free && s.threads[i].role != Drainer
    ensures NoneForgotten(Apply(s, Open(i)))
  {
    RestackCounts(s, i, Apply(s, Open(i)).threads[i]);
  }

  // ---- dpend_done ----

  lemma DoneCounted(s: Pool, i: nat, wake: nat)
    requires Inv(s) && i < |s.threads| && s.threads[i].act.Copy?
    ensures Counted(Finished(s, i, wake))
  {
    var d0 := s.threads[i].act.dir;
    var s' := Finished(s, i, wake);
    forall d | 0 <= d < |s'.n| ensures s'.n[d] == Count(s'.threads, Carrying(d)) + Queued(s'.queue, d) {
      Changed(s.threads, i, Free, DirDone(d0), wake, Carrying(d));
    }
  }

  /** The one thread waiting for a directory is the one a signal finds. */
  lemma OneWaiter(s: Pool, j: nat, k: nat)
    requires Shape(s) && Owned(s) && j < |s.threads| && k < |s.threads|
    requires s.threads[j].act == WaitAsleep && s.threads[k].act == WaitAsleep && Top(s.threads[j]) == Top(s.threads[k])
    ensures j == k
  {
    var d := Top(s.threads[j]);
    OpenNotApplied(s, j);
    assert ThreadOk(s.threads[k], |s.n|) && d in s.threads[k].dirs && d in s.threads[j].dirs;
    if j < k { CountPair(s.threads, j, k, Opened(d)); }
    if k < j { CountPair(s.threads, k, j, Opened(d)); }
  }

  lemma DoneWakes(s: Pool, i: nat, wake: nat)
    requires Inv(s) && i < |s.threads| && s.threads[i].act.Copy?
    ensures NoneForgotten(Finished(s, i, wake))
  {
    var d0 := s.threads[i].act.dir;
    var s' := Finished(s, i, wake);
    if s' != s {
      Changed(s.threads, i, Free, DirDone(d0), wake, WorkWoken);
      Changed(s.threads, i, Free, DirDone(d0), wake, RoomWoken);
      StillAsleep(s.threads, i, Free, DirDone(d0), wake);
      StillAsleep(s.threads, i, Free, DirDone(d0), |s.threads|);
      if s.n[d0] == 1 { WaiterWoken(s, i, d0, wake); }
      SleepersKept(s, s');
    }
  }

  /** Sleepers that slept before, with the same queue and as many woken, and who
      still wait for something if they wait for a directory, are not forgotten. */
  lemma SleepersKept(s: Pool, s': Pool)
    requires NoneForgotten(s) && |s'.threads| == |s.threads| && s'.queue == s.queue && s'.cap == s.cap
    requires Count(s'.threads, WorkWoken) == Count(s.threads, WorkWoken)
    requires Count(s'.threads, RoomWoken) == Count(s.threads, RoomWoken)
    requires forall k :: 0 <= k < |s.threads| && s'.threads[k].act in {EmptyAsleep, FullAsleep} ==>
               s'.threads[k].act == s.threads[k].act
    requires forall k :: 0 <= k < |s.threads| && s'.threads[k].act == WaitAsleep ==>
               Top(s'.threads[k]) < |s'.n| && s'.n[Top(s'.threads[k])] > 0
    ensures NoneForgotten(s')
  {
  }

  /** The signal of a directory's last copy leaves nobody waiting for it. */
  lemma WaiterWoken(s: Pool, i: nat, d: nat, wake: nat)
    requires Shape(s) && Owned(s) && i < |s.threads| && s.threads[i].act.Copy?
    requires CanWake(SetAct(s.threads, i, Free), DirDone(d), wake)
    ensures var ts := Signal(SetAct(s.threads, i, Free), DirDone(d), wake);
            forall k :: 0 <= k < |ts| && ts[k].act == WaitAsleep ==> Top(ts[k]) != d
  {
    var ts1 := SetAct(s.threads, i, Free);
    var ts := Signal(ts1, DirDone(d), wake);
    forall k | 0 <= k < |ts| && ts[k].act == WaitAsleep ensures Top(ts[k]) != d {
      if Top(s.threads[k]) == d {
        assert SleepsOn(ts1[k], DirDone(d));
        assert SleepsOn(ts1[wake], DirDone(d));
        OneWaiter(s, k, wake);
      }
    }
  }

  lemma DoneInv(s: Pool, i: nat, wake: nat)
    requires Inv(s) && i < |s.threads| && s.threads[i].act.Copy?
    ensures Inv(Finished(s, i, wake))
  {
    var d0 := s.threads[i].act.dir;
    DoneCounted(s, i, wake);
    DoneWakes(s, i, wake);
    ActShape(s.threads, i, Free, DirDone(d0), wake, |s.n|);
    var s' := Finished(s, i, wake);
    if s' != s {
      ActOwned(s, s', i, Free, DirDone(d0), wake);
    }
  }

  lemma StepInv(s: Pool, step: Step)
    requires Inv(s)
    ensures Inv(Apply(s, step))
  {
    if step.i < |s.threads| {
      var i, t := step.i, s.threads[step.i];
      assert ThreadOk(t, |s.n|);
      match step
      case Open(_) => if t.act == Free && t.role != Drainer { OpenInv(s, i); }
      case Add(_) => if t.act == Free && t.dirs != [] && Top(t) < |s.n| { AddInv(s, i); }
      case Enqueue(_, wake) =>
        if t.act == Submit || t.act == FullWoken {
          if |s.queue| >= s.cap { EnqueueFullInv(s, i, wake); }
          else if CanWake(SetAct(s.threads, i, Free), NotEmpty, wake) { EnqueueInv(s, i, wake); }
        }
      case EndDir(_) =>
        if t.dirs != [] && (t.act == Free || t.act == WaitWoken) {
          OpenNotApplied(s, i);
          if s.n[Top(t)] == 0 { CloseInv(s, i); } else { WaitInv(s, i); }
        }
      case Pop(_, wake) =>
        if t.dirs == [] && (t.act == Free || t.act == EmptyWoken) {
          if s.queue != [] { TakeInv(s, i, wake); } else if t.role != Walker { IdleInv(s, i, EmptyAsleep); }
        }
      case Timeout(_, wake) =>
        if t.role == Generalist && (t.act == EmptyAsleep || t.act == EmptyWoken) {
          if s.queue != [] { TakeInv(s, i, wake); } else { IdleInv(s, i, Free); }
        }
      case Done(_, wake) => if t.act.Copy? { DoneInv(s, i, wake); }
      case Spurious(_) => SpuriousInv(s, i);
    }
  }

  lemma {:induction false} RunInv(s: Pool, steps: seq<Step>)
    requires Inv(s)
    ensures Inv(Run(s, steps))
    decreases |steps|
  {
    if steps != [] {
      StepInv(s, steps[0]);
      RunInv(Apply(s, steps[0]), steps[1..]);
    }
  }

  // ---------------------------------------------------------------------
  // The pool as started
  // ---------------------------------------------------------------------

  /** cp_reserve_for. */
  function Reserve(copyThreads: nat, steal: bool): nat {
    if !steal || copyThreads < 2 then copyThreads
    else if copyThreads / 4 < 1 then 1 else copyThreads / 4
  }

  lemma ReserveKeepsADrainer(copyThreads: nat, steal: bool)
    requires copyThreads >= 1
    ensures 1 <= Reserve(copyThreads, steal) <= copyThreads
    ensures !steal ==> Reserve(copyThreads, steal) == copyThreads
    ensures steal && copyThreads >= 2 ==>
              var r := Reserve(copyThreads, steal); r < copyThreads && (r == 1 || 4 * r <= copyThreads) && copyThreads < 4 * (r + 1)
  {
  }

  function Idle(count: nat, role: Role): (ts: seq<Thread>)
    ensures |ts| == count && forall k :: 0 <= k < count ==> ts[k] == Thread(role, [], Free)
  {
    if count == 0 then [] else [Thread(role, [], Free)] + Idle(count - 1, role)
  }

  /** Workers, then cp_init's threads: reserve drainers, generalists after them. */
  function Start(workers: nat, copyThreads: nat, steal: bool): Pool
    requires copyThreads >= 1
  {
    var reserve := Reserve(copyThreads, steal);
    Pool(Idle(workers, Walker) + Idle(reserve, Drainer) + Idle(if reserve < copyThreads then copyThreads - reserve else 0, Generalist),
         [], copyThreads * 8, [], {})
  }

  lemma StartInv(workers: nat, copyThreads: nat, steal: bool)
    requires copyThreads >= 1
    ensures Inv(Start(workers, copyThreads, steal))
    ensures workers < |Start(workers, copyThreads, steal).threads| &&
            Start(workers, copyThreads, steal).threads[workers].role == Drainer
  {
    ReserveKeepsADrainer(copyThreads, steal);
    var s := Start(workers, copyThreads, steal);
    forall k | 0 <= k < |s.threads| ensures s.threads[k].dirs == [] && s.threads[k].act == Free {
    }
  }

  /** Who is started: all workers walk, the reserve only drains, the other copy
      threads do both. */
  lemma ThreadsStarted(workers: nat, copyThreads: nat, steal: bool, k: nat)
    requires copyThreads >= 1
    ensures var s, r := Start(workers, copyThreads, steal), Reserve(copyThreads, steal);
            && |s.threads| == workers + copyThreads && s.cap == 8 * copyThreads && s.queue == [] && s.n == []
            && (k < |s.threads| ==>
                  s.threads[k] == Thread(if k < workers then Walker else if k < workers + r then Drainer else Generalist, [], Free))
  {
    ReserveKeepsADrainer(copyThreads, steal);
  }

  lemma {:induction false} RunKeepsRoles(s: Pool, steps: seq<Step>)
    ensures |Run(s, steps).threads| == |s.threads| && Run(s, steps).cap == s.cap
    ensures forall k :: 0 <= k < |s.threads| ==> Run(s, steps).threads[k].role == s.threads[k].role
    decreases |steps|
  {
    if steps != [] {
      StepKeepsRoles(s, steps[0]);
      RunKeepsRoles(Apply(s, steps[0]), steps[1..]);
    }
  }

  lemma StepKeepsRoles(s: Pool, step: Step)
    ensures |Apply(s, step).threads| == |s.threads| && Apply(s, step).cap == s.cap
    ensures forall k :: 0 <= k < |s.threads| ==> Apply(s, step).threads[k].role == s.threads[k].role
  {
  }

  // ---------------------------------------------------------------------
  // Main results
  // ---------------------------------------------------------------------

  /** The thread can take a step without anyone's help, and would. */
  predicate Runnable(t: Thread) {
    || t.act in {Submit, FullWoken, WaitWoken, EmptyWoken} || t.act.Copy?
    || (t.act == Free && (t.dirs != [] || t.role == Drainer))
  }

  lemma NobodyWoken(s: Pool)
    requires forall k :: 0 <= k < |s.threads| ==> !Runnable(s.threads[k])
    ensures Count(s.threads, WorkWoken) == 0 && Count(s.threads, RoomWoken) == 0
    ensures forall d: nat ::
              (forall k :: 0 <= k < |s.threads| ==> s.threads[k].act != FullAsleep) ==> Count(s.threads, Carrying(d)) == 0
  {
    CountZero(s.threads, WorkWoken);
    CountZero(s.threads, RoomWoken);
    forall d: nat ensures
      (forall k :: 0 <= k < |s.threads| ==> s.threads[k].act != FullAsleep) ==> Count(s.threads, Carrying(d)) == 0
    {
      CountZero(s.threads, Carrying(d));
    }
  }

  /** If nothing can move, nobody is waiting in cp_submit or dpend_wait. */
  lemma StuckMeansIdle(s: Pool, drainer: nat)
    requires Inv(s) && drainer < |s.threads| && s.threads[drainer].role == Drainer
    requires forall k :: 0 <= k < |s.threads| ==> !Runnable(s.threads[k])
    ensures s.queue == []
    ensures forall k :: 0 <= k < |s.threads| ==> !InSubmit(s.threads[k]) && !InWait(s.threads[k])
  {
    NobodyWoken(s);
    assert ThreadOk(s.threads[drainer], |s.n|);
    assert s.threads[drainer].act == EmptyAsleep;
    assert |s.queue| == 0;
    assert forall k :: 0 <= k < |s.threads| ==> s.threads[k].act != FullAsleep;
    forall d | 0 <= d < |s.n| ensures s.n[d] == 0 {
      assert Count(s.threads, Carrying(d)) == 0 && Queued(s.queue, d) == 0;
    }
    assert forall k :: 0 <= k < |s.threads| ==> s.threads[k].act != WaitAsleep;
  }

  /** No deadlock: in every state the pool can reach, if a thread is in
      cp_submit or dpend_wait, some thread can run. */
  lemma NoDeadlock(workers: nat, copyThreads: nat, steal: bool, steps: seq<Step>)
    requires copyThreads >= 1
    ensures var s := Run(Start(workers, copyThreads, steal), steps);
            (exists k :: 0 <= k < |s.threads| && (InSubmit(s.threads[k]) || InWait(s.threads[k])))
            ==> exists k :: 0 <= k < |s.threads| && Runnable(s.threads[k])
  {
    var s0 := Start(workers, copyThreads, steal);
    var s := Run(s0, steps);
    StartInv(workers, copyThreads, steal);
    RunInv(s0, steps);
    RunKeepsRoles(s0, steps);
    if forall k :: 0 <= k < |s.threads| ==> !Runnable(s.threads[k]) {
      StuckMeansIdle(s, workers);
    }
  }

  /** The queue stays within its cap, dp.n is exactly the directory's tasks being
      submitted, queued or copied, and once a directory's metadata is applied no
      copy into it is left or can ever start again. */
  lemma Barrier(workers: nat, copyThreads: nat, steal: bool, steps: seq<Step>)
    requires copyThreads >= 1
    ensures var s := Run(Start(workers, copyThreads, steal), steps);
            && |s.queue| <= s.cap == 8 * copyThreads
            && (forall d :: 0 <= d < |s.n| ==> s.n[d] == Count(s.threads, Carrying(d)) + Queued(s.queue, d))
            && (forall d :: d in s.applied ==>
                  && Count(s.threads, Carrying(d)) == 0 && Count(s.threads, Opened(d)) == 0 && d !in s.queue)
  {
    var s0 := Start(workers, copyThreads, steal);
    var s := Run(s0, steps);
    StartInv(workers, copyThreads, steal);
    RunInv(s0, steps);
    RunKeepsRoles(s0, steps);
    forall d | d in s.applied ensures
      Count(s.threads, Carrying(d)) == 0 && Count(s.threads, Opened(d)) == 0 && d !in s.queue
    {
      assert d < |s.n| && s.n[d] == 0;
      assert s.n[d] == Count(s.threads, Carrying(d)) + Queued(s.queue, d);
    }
  }

  // ---------------------------------------------------------------------
  // Every copy can end
  // ---------------------------------------------------------------------

  /** Steps a thread's task still needs, at most: submitting weighs more than
      queueing, queueing more than copying. */
  function Effort(t: Thread): nat {
    match t.act
    case Submit | FullWoken => 5
    case FullAsleep => 4
    case Copy(_) => 1
    case _ => 0
  }

  function Efforts(ts: seq<Thread>): nat {
    if ts == [] then 0 else Effort(ts[0]) + Efforts(ts[1..])
  }

  function Work(s: Pool): nat { Efforts(s.threads) + 3 * |s.queue| }

  lemma {:induction false} EffortsUpdate(ts: seq<Thread>, i: nat, t: Thread)
    requires i < |ts|
    ensures Efforts(ts[i := t]) + Effort(ts[i]) == Efforts(ts) + Effort(t)
  {
    if i == 0 {
      assert ts[0 := t][1..] == ts[1..];
    } else {
      assert ts[i := t][1..] == ts[1..][i - 1 := t];
      EffortsUpdate(ts[1..], i - 1, t);
    }
  }

  lemma {:induction false} EffortsZero(ts: seq<Thread>)
    ensures Efforts(ts) == 0 <==> forall k :: 0 <= k < |ts| ==> Effort(ts[k]) == 0
  {
    if ts != [] {
      EffortsZero(ts[1..]);
      assert forall k :: 1 <= k < |ts| ==> ts[k] == ts[1..][k - 1];
    }
  }

  lemma EffortsSignal(ts: seq<Thread>, c: Cond, wake: nat)
    ensures Efforts(Signal(ts, c, wake)) <= Efforts(ts) + (if c == NotFull then 1 else 0)
    ensures |Signal(ts, c, wake)| == |ts|
    ensures forall k :: 0 <= k < |ts| ==> Signal(ts, c, wake)[k].dirs == ts[k].dirs
  {
    if wake < |ts| && SleepsOn(ts[wake], c) {
      EffortsUpdate(ts, wake, Wake(ts[wake]));
    }
  }

  /** One thread goes on to another act, and perhaps a sleeper is woken. */
  lemma EffortsMove(ts: seq<Thread>, i: nat, a: Act, c: Cond, wake: nat)
    requires i < |ts|
    ensures var ts' := Signal(SetAct(ts, i, a), c, wake);
            && Efforts(SetAct(ts, i, a)) + Effort(ts[i]) == Efforts(ts) + Effort(ts[i].(act := a))
            && Efforts(ts') <= Efforts(SetAct(ts, i, a)) + (if c == NotFull then 1 else 0)
            && |ts'| == |ts| && (forall k :: 0 <= k < |ts| ==> ts'[k].dirs == ts[k].dirs)
  {
    EffortsUpdate(ts, i, ts[i].(act := a));
    EffortsSignal(SetAct(ts, i, a), c, wake);
  }

  lemma SomeWake(ts: seq<Thread>, c: Cond) returns (wake: nat)
    ensures CanWake(ts, c, wake)
  {
    wake := 0;
    if k :| 0 <= k < |ts| && SleepsOn(ts[k], c) { wake := k; }
  }

  /** Directories stay as they are, tasks come closer to their end. */
  ghost predicate Nearer(s: Pool, s': Pool) {
    && Inv(s') && Work(s') < Work(s) && Kept(s, s')
  }

  ghost predicate Kept(s: Pool, s': Pool) {
    && |s'.n| == |s.n| && s'.applied == s.applied && |s'.threads| == |s.threads|
    && (forall k :: 0 <= k < |s.threads| ==> s'.threads[k].dirs == s.threads[k].dirs && s'.threads[k].role == s.threads[k].role)
  }

  lemma DoneWork(s: Pool, k: nat, d: nat, wake: nat)
    requires k < |s.threads| && s.threads[k].act == Copy(d) && d < |s.n| && s.n[d] > 0
    requires CanWake(SetAct(s.threads, k, Free), DirDone(d), wake)
    ensures Work(Apply(s, Done(k, wake))) < Work(s) && Kept(s, Apply(s, Done(k, wake)))
  {
    EffortsMove(s.threads, k, Free, DirDone(d), wake);
    StepKeepsRoles(s, Done(k, wake));
  }

  lemma CarriesOne(s: Pool, k: nat)
    requires Inv(s) && k < |s.threads| && s.threads[k].act.Copy?
    ensures var d := s.threads[k].act.dir; d < |s.n| && s.n[d] > 0
  {
    assert ThreadOk(s.threads[k], |s.n|);
    CountZero(s.threads, Carrying(s.threads[k].act.dir));
  }

  lemma CopyEnds(s: Pool, k: nat) returns (step: Step)
    requires Inv(s) && k < |s.threads| && s.threads[k].act.Copy?
    ensures Nearer(s, Apply(s, step))
  {
    var d := s.threads[k].act.dir;
    var wake := SomeWake(SetAct(s.threads, k, Free), DirDone(d));
    step := Done(k, wake);
    CarriesOne(s, k);
    DoneWork(s, k, d, wake);
    StepInv(s, step);
  }

  lemma EnqueueWork(s: Pool, k: nat, wake: nat)
    requires k < |s.threads| && (s.threads[k].act == Submit || s.threads[k].act == FullWoken)
    requires CanWake(SetAct(s.threads, k, Free), NotEmpty, wake)
    ensures Work(Apply(s, Enqueue(k, wake))) < Work(s) && Kept(s, Apply(s, Enqueue(k, wake)))
  {
    EffortsMove(s.threads, k, Free, NotEmpty, wake);
    EffortsMove(s.threads, k, FullAsleep, NotEmpty, |s.threads|);
    StepKeepsRoles(s, Enqueue(k, wake));
  }

  lemma SubmitGoesOn(s: Pool, k: nat) returns (step: Step)
    requires Inv(s) && k < |s.threads| && (s.threads[k].act == Submit || s.threads[k].act == FullWoken)
    ensures Nearer(s, Apply(s, step))
  {
    var wake := SomeWake(SetAct(s.threads, k, Free), NotEmpty);
    step := Enqueue(k, wake);
    EnqueueWork(s, k, wake);
    StepInv(s, step);
  }

  lemma PopWork(s: Pool, k: nat, wake: nat)
    requires k < |s.threads| && s.queue != []
    requires s.threads[k].dirs == [] && (s.threads[k].act == Free || s.threads[k].act == EmptyWoken)
    requires CanWake(SetAct(s.threads, k, Copy(s.queue[0])), NotFull, wake)
    ensures Work(Apply(s, Pop(k, wake))) < Work(s) && Kept(s, Apply(s, Pop(k, wake)))
  {
    EffortsMove(s.threads, k, Copy(s.queue[0]), NotFull, wake);
    StepKeepsRoles(s, Pop(k, wake));
  }

  lemma TaskIsTaken(s: Pool, k: nat) returns (step: Step)
    requires Inv(s) && k < |s.threads| && s.queue != []
    requires s.threads[k].dirs == [] && (s.threads[k].act == Free || s.threads[k].act == EmptyWoken)
    ensures Nearer(s, Apply(s, step))
  {
    var wake := SomeWake(SetAct(s.threads, k, Copy(s.queue[0])), NotFull);
    step := Pop(k, wake);
    PopWork(s, k, wake);
    StepInv(s, step);
  }

  /** With a drainer around, no task is stuck. */
  lemma Progress(s: Pool, drainer: nat) returns (step: Step)
    requires Inv(s) && drainer < |s.threads| && s.threads[drainer].role == Drainer && Work(s) > 0
    ensures Nearer(s, Apply(s, step))
  {
    if k :| 0 <= k < |s.threads| && s.threads[k].act.Copy? {
      step := CopyEnds(s, k);
    } else if k :| 0 <= k < |s.threads| && (s.threads[k].act == Submit || s.threads[k].act == FullWoken) {
      step := SubmitGoesOn(s, k);
    } else {
      QueueHasWork(s);
      var k := Taker(s, drainer);
      step := TaskIsTaken(s, k);
    }
  }

  lemma QueueHasWork(s: Pool)
    requires Inv(s) && Work(s) > 0
    requires forall k :: 0 <= k < |s.threads| ==> Effort(s.threads[k]) in {0, 4}
    ensures s.queue != []
  {
    CountZero(s.threads, RoomWoken);
    EffortsZero(s.threads);
  }

  lemma Taker(s: Pool, drainer: nat) returns (k: nat)
    requires Inv(s) && drainer < |s.threads| && s.threads[drainer].role == Drainer && s.queue != []
    requires forall k :: 0 <= k < |s.threads| ==> !s.threads[k].act.Copy?
    ensures k < |s.threads| && s.threads[k].dirs == [] && (s.threads[k].act == Free || s.threads[k].act == EmptyWoken)
  {
    k := drainer;
    assert ThreadOk(s.threads[drainer], |s.n|);
    if s.threads[drainer].act == EmptyAsleep {
      CountZero(s.threads, WorkWoken);
      k :| 0 <= k < |s.threads| && Is(s.threads[k], WorkWoken);
      assert ThreadOk(s.threads[k], |s.n|);
    }
  }

  lemma {:induction false} RunAppend(s: Pool, a: seq<Step>, b: seq<Step>)
    ensures Run(s, a + b) == Run(Run(s, a), b)
    decreases |a|
  {
    if a == [] {
      assert a + b == b;
    } else {
      assert (a + b)[0] == a[0] && (a + b)[1..] == a[1..] + b;
      RunAppend(Apply(s, a[0]), a[1..], b);
    }
  }

  lemma RunOne(s: Pool, step: Step, rest: seq<Step>)
    ensures Run(s, [step] + rest) == Run(Apply(s, step), rest)
  {
    assert ([step] + rest)[1..] == rest;
  }

  lemma {:induction false} TasksDrain(s: Pool, drainer: nat) returns (steps: seq<Step>)
    requires Inv(s) && drainer < |s.threads| && s.threads[drainer].role == Drainer
    ensures var e := Run(s, steps); Inv(e) && Work(e) == 0 && Kept(s, e)
    decreases Work(s)
  {
    steps := [];
    if Work(s) > 0 {
      var step := Progress(s, drainer);
      var rest := TasksDrain(Apply(s, step), drainer);
      steps := [step] + rest;
      RunOne(s, step, rest);
    }
  }

  /** Nothing is queued, submitted or copied any more. */
  lemma NothingInFlight(s: Pool)
    requires Inv(s) && Work(s) == 0
    ensures s.queue == [] && forall d :: 0 <= d < |s.n| ==> s.n[d] == 0
    ensures forall k :: 0 <= k < |s.threads| ==> !InSubmit(s.threads[k]) && !s.threads[k].act.Copy? && s.threads[k].act != WaitAsleep
  {
    EffortsZero(s.threads);
    forall d | 0 <= d < |s.n| ensures s.n[d] == 0 {
      CountZero(s.threads, Carrying(d));
    }
    forall k | 0 <= k < |s.threads| ensures !InSubmit(s.threads[k]) && !s.threads[k].act.Copy? {
      assert Effort(s.threads[k]) == 0;
    }
  }

  /** In every state the pool can reach, every task that is submitted, queued or
      being copied can still be brought to its end. */
  lemma EveryCopyCanEnd(workers: nat, copyThreads: nat, steal: bool, steps: seq<Step>) returns (more: seq<Step>)
    requires copyThreads >= 1
    ensures var s := Run(Start(workers, copyThreads, steal), steps + more);
            && s.queue == [] && (forall d :: 0 <= d < |s.n| ==> s.n[d] == 0)
            && (forall k :: 0 <= k < |s.threads| ==> !InSubmit(s.threads[k]) && !s.threads[k].act.Copy? && s.threads[k].act != WaitAsleep)
  {
    var s0 := Start(workers, copyThreads, steal);
    StartInv(workers, copyThreads, steal);
    RunInv(s0, steps);
    RunKeepsRoles(s0, steps);
    more := TasksDrain(Run(s0, steps), workers);
    RunAppend(s0, steps, more);
    NothingInFlight(Run(s0, steps + more));
  }

  lemma Entered(s: Pool, i: nat)
    requires Inv(s) && i < |s.threads| && s.threads[i].act == Free && s.threads[i].role != Drainer
    ensures var s2, t := Apply(Apply(s, Open(i)), Add(i)), s.threads[i];
            && Inv(s2) && s2.n == s.n + [1] && s2.applied == s.applied
            && s2.threads == s.threads[i := Thread(t.role, t.dirs + [|s.n|], Submit)]
  {
    StepInv(s, Open(i));
    StepInv(Apply(s, Open(i)), Add(i));
  }

  lemma Left(s: Pool, i: nat, dirs: seq<nat>, d: nat)
    requires Inv(s) && Work(s) == 0 && i < |s.threads| && s.threads[i].dirs == dirs + [d]
    ensures var e := Apply(s, EndDir(i));
            d in e.applied && |e.threads| == |s.threads| && e.threads[i].dirs == dirs && e.threads[i].act == Free
  {
    NothingInFlight(s);
    assert ThreadOk(s.threads[i], |s.n|);
    assert s.threads[i].dirs[|dirs|] == d && (dirs + [d])[..|dirs|] == dirs;
  }

  /** And a free thread that enters a directory and submits a copy can finish the
      directory: its metadata is applied, after the copy. */
  lemma DirectoryCanBeDone(s: Pool, drainer: nat, i: nat) returns (steps: seq<Step>)
    requires Inv(s) && drainer < |s.threads| && s.threads[drainer].role == Drainer
    requires i < |s.threads| && s.threads[i].act == Free && s.threads[i].role != Drainer
    ensures var e := Run(s, [Open(i)] + ([Add(i)] + steps));
            |s.n| in e.applied && i < |e.threads| && e.threads[i].dirs == s.threads[i].dirs && e.threads[i].act == Free
  {
    var s1 := Apply(s, Open(i));
    var s2 := Apply(s1, Add(i));
    Entered(s, i);
    var rest := TasksDrain(s2, drainer);
    var s3 := Run(s2, rest);
    Left(s3, i, s.threads[i].dirs, |s.n|);
    steps := rest + [EndDir(i)];
    RunOne(s, Open(i), [Add(i)] + steps);
    RunOne(s1, Add(i), steps);
    RunAppend(s2, rest, [EndDir(i)]);
    RunOne(s3, EndDir(i), []);
    assert [EndDir(i)] + [] == [EndDir(i)];
  }

  /** A thread with nothing to do that finds the queue empty goes to sleep on it,
      unless it is a walker, which only looks. */
  lemma EmptyPop(s: Pool, i: nat, wake: nat)
    requires i < |s.threads| && s.queue == [] && s.threads[i].dirs == [] && s.threads[i].act in {Free, EmptyWoken}
    ensures var s' := Apply(s, Pop(i, wake));
            if s.threads[i].role == Walker then s' == s
            else s' == s.(threads := s'.threads) && s'.threads == s.threads[i := s.threads[i].(act := EmptyAsleep)]
  {
  }

  /** A generalist that gives up waiting takes a task if one has come, and is free
      to walk if not. */
  lemma TimeoutFrees(s: Pool, i: nat, wake: nat)
    requires Inv(s) && i < |s.threads| && s.threads[i].role == Generalist
    requires s.threads[i].act == EmptyAsleep || s.threads[i].act == EmptyWoken
    requires s.queue != [] ==> CanWake(SetAct(s.threads, i, Copy(s.queue[0])), NotFull, wake)
    ensures Apply(s, Timeout(i, wake)).threads[i].act == if s.queue == [] then Free else Copy(s.queue[0])
  {
  }

  /** A spurious wake-up changes nobody else, and no counter. */
  lemma SpuriousOnlyWakes(s: Pool, i: nat)
    requires i < |s.threads|
    ensures var s' := Apply(s, Spurious(i));
            && s' == s.(threads := s.threads[i := s'.threads[i]])
            && (s.threads[i].act == FullAsleep ==> s'.threads[i].act == FullWoken)
            && (s.threads[i].act == WaitAsleep ==> s'.threads[i].act == WaitWoken)
            && (s.threads[i].act == EmptyAsleep ==> s'.threads[i].act == EmptyWoken)
  {
  }
}
