/** Journals before results: a shard reports OK only once its journal batches
    are acked, and an ack is sent only for batches that were synced
    (agent/src/jrn.c, coordinator/internal/agentsrv/server.go onJournalBatch and
    flushAndAck). One agent, any number of shards on its threads. */
module JournalProtocol {

  datatype Option<+A> = None | Some(value: A)

  datatype State = State(
    // agent
    lastSeq: nat,                 // g_seq
    taken: map<nat, nat>,         // seq taken by a shard's thread, frame not queued yet
    owner: map<nat, nat>,         // which shard each seq taken so far belongs to
    maxSeq: map<nat, nat>,        // per shard: highest seq it queued
    acked: nat,                   // g_acked
    ok: set<nat>,                 // shards that reported OK
    // outbox and socket
    wire: seq<nat>,
    ackWire: seq<nat>,
    // coordinator
    written: set<nat>,            // appended to a segment
    durable: set<nat>,            // fsynced
    pending: nat,                 // jrnPending
    sent: nat,                    // jrnAcked
    target: Option<nat>,          // flushAndAck: high-water captured before the fsync
    synced: bool                  // ... and the fsync for it returned
  )

  datatype Step =
    | Take(shard: nat)            // flush_locked: the sequence number
    | Queue(seq_: nat)            // flush_locked: out_push and max_seq
    | Deliver                     // onJournalBatch of the oldest frame
    | Lose                        // a failed session discards the oldest frame
    | Capture                     // flushAndAck: snapshot of the high-water mark
    | Sync(good: bool)            // flushAndAck: fsync
    | SendAck                     // flushAndAck: ack up to the snapshot
    | DeliverAck                  // jrn_ack_update
    | Finish(shard: nat)          // jrn_wait_acked succeeds, the result is sent

  function Start(): State {
    State(0, map[], map[], map[], 0, {}, [], [], {}, {}, 0, 0, None, false)
  }

  function Max(a: nat, b: nat): nat { if a > b then a else b }

  function MaxSeq(s: State, shard: nat): nat {
    if shard in s.maxSeq then s.maxSeq[shard] else 0
  }

  /** The shard's own thread still holds a number it has not queued. */
  predicate Busy(s: State, shard: nat) {
    exists q :: q in s.taken && s.taken[q] == shard
  }

  function Apply(s: State, t: Step): State {
    match t
    case Take(shard) =>
      if shard in s.ok || Busy(s, shard) then s
      else
        var q := s.lastSeq + 1;
        s.(lastSeq := q, taken := s.taken[q := shard], owner := s.owner[q := shard])
    case Queue(q) =>
      if q in s.taken then
        var shard := s.taken[q];
        s.(taken := s.taken - {q}, wire := s.wire + [q],
           maxSeq := s.maxSeq[shard := Max(MaxSeq(s, shard), q)])
      else s
    case Deliver =>
      if s.wire != [] then
        s.(wire := s.wire[1..], written := s.written + {s.wire[0]}, pending := Max(s.pending, s.wire[0]))
      else s
    case Lose => if s.wire != [] then s.(wire := s.wire[1..]) else s
    case Capture =>
      if s.target.None? && s.pending > s.sent then s.(target := Some(s.pending), synced := false) else s
    case Sync(good) =>
      if s.target.Some? && !s.synced then
        if good then s.(durable := s.written, synced := true) else s.(target := None)
      else s
    case SendAck =>
      if s.target.Some? && s.synced then
        s.(sent := Max(s.sent, s.target.value), ackWire := s.ackWire + [s.target.value], target := None, synced := false)
      else s
    case DeliverAck =>
      if s.ackWire != [] then s.(ackWire := s.ackWire[1..], acked := Max(s.acked, s.ackWire[0])) else s
    case Finish(shard) =>
      if !Busy(s, shard) && s.acked >= MaxSeq(s, shard) then s.(ok := s.ok + {shard}) else s
  }

  function Run(s: State, steps: seq<Step>): State
    decreases |steps|
  {
    if steps == [] then s else Run(Apply(s, steps[0]), steps[1..])
  }

  /** Frames enter the outbox in the order of their sequence numbers. The code
      takes the number and queues the frame in two separate steps, so this is a
      hypothesis on the interleaving of threads. */
  ghost predicate InOrder(s: State, t: Step) {
    t.Queue? && t.seq_ in s.taken ==> forall q :: q in s.taken ==> t.seq_ <= q
  }

  /** No session fails while frames wait: the writer discards what it holds. */
  ghost predicate Lossless(s: State, t: Step) {
    t.Lose? ==> s.wire == []
  }

  ghost predicate Kept(s: State, t: Step) {
    InOrder(s, t) && Lossless(s, t)
  }

  ghost predicate AllKept(s: State, steps: seq<Step>)
    decreases |steps|
  {
    steps != [] ==> Kept(s, steps[0]) && AllKept(Apply(s, steps[0]), steps[1..])
  }

  // ---------------------------------------------------------------------
  // Invariant
  // ---------------------------------------------------------------------

  /** How many batches have been queued and delivered. */
  ghost predicate Prefixes(s: State, queued: nat) {
    && |s.wire| <= queued <= s.lastSeq
    && (forall q :: q in s.taken <==> queued < q <= s.lastSeq)
    && (forall i :: 0 <= i < |s.wire| ==> s.wire[i] == queued - |s.wire| + 1 + i)
    && (forall q :: q in s.written <==> 1 <= q <= queued - |s.wire|)
    && s.pending == queued - |s.wire|
  }

  ghost predicate AcksDurable(s: State) {
    && s.durable <= s.written
    && s.sent <= s.pending && (forall q :: 1 <= q <= s.sent ==> q in s.durable)
    && (s.target.Some? ==> s.target.value <= s.pending)
    && (s.target.Some? && s.synced ==> forall q :: 1 <= q <= s.target.value ==> q in s.durable)
    && (forall i :: 0 <= i < |s.ackWire| ==> s.ackWire[i] <= s.sent)
    && s.acked <= s.sent
  }

  ghost predicate Owners(s: State) {
    && (forall q :: q in s.owner <==> 1 <= q <= s.lastSeq)
    && (forall q :: q in s.taken ==> q in s.owner && s.owner[q] == s.taken[q])
    && (forall q :: q in s.owner && q !in s.taken ==> q <= MaxSeq(s, s.owner[q]))
    && (forall q :: q in s.owner && s.owner[q] in s.ok ==> q in s.durable)
    && (forall q :: q in s.taken ==> s.taken[q] !in s.ok)
  }

  /** A shard's thread holds one number at a time, and has queued no later one. */
  ghost predicate Threads(taken: map<nat, nat>, maxSeq: map<nat, nat>, queued: nat) {
    && (forall q, p :: q in taken && p in taken && taken[q] == taken[p] ==> q == p)
    && (forall h :: h in maxSeq ==> maxSeq[h] <= queued)
  }

  ghost predicate Inv(s: State, queued: nat) {
    Prefixes(s, queued) && AcksDurable(s) && Owners(s) && Threads(s.taken, s.maxSeq, queued)
  }

  lemma TakeInv(s: State, shard: nat, queued: nat)
    requires Inv(s, queued)
    ensures Inv(Apply(s, Take(shard)), queued)
  {
  }

  lemma QueueInv(s: State, q: nat, queued: nat)
    requires Inv(s, queued) && InOrder(s, Queue(q)) && q in s.taken
    ensures Inv(Apply(s, Queue(q)), queued + 1)
  {
    assert queued + 1 in s.taken;
    assert q == queued + 1;
    var s' := Apply(s, Queue(q));
    assert Prefixes(s', queued + 1);
    forall x | x in s'.owner && x !in s'.taken ensures x <= MaxSeq(s', s'.owner[x]) {
    }
  }

  lemma DeliverInv(s: State, queued: nat)
    requires Inv(s, queued)
    ensures Inv(Apply(s, Deliver), queued)
  {
    if s.wire != [] {
      var s' := Apply(s, Deliver);
      assert s.wire[0] == queued - |s.wire| + 1;
      assert Prefixes(s', queued);
    }
  }

  lemma SyncInv(s: State, good: bool, queued: nat)
    requires Inv(s, queued)
    ensures Inv(Apply(s, Sync(good)), queued)
  {
    var s' := Apply(s, Sync(good));
    assert Prefixes(s', queued);
    assert forall q :: 1 <= q <= s.pending ==> q in s.written;
  }

  lemma CoordinatorInv(s: State, t: Step, queued: nat)
    requires Inv(s, queued) && (t.Capture? || t.SendAck? || t.DeliverAck?)
    ensures Inv(Apply(s, t), queued)
  {
    assert Prefixes(Apply(s, t), queued);
  }

  lemma FinishInv(s: State, shard: nat, queued: nat)
    requires Inv(s, queued)
    ensures Inv(Apply(s, Finish(shard)), queued)
  {
    if !Busy(s, shard) && s.acked >= MaxSeq(s, shard) {
      forall q | q in s.owner && s.owner[q] == shard ensures q in s.durable {
        assert q !in s.taken;
      }
    }
  }

  lemma StepInv(s: State, t: Step, queued: nat) returns (queued': nat)
    requires Inv(s, queued) && Kept(s, t)
    ensures Inv(Apply(s, t), queued')
  {
    queued' := queued;
    match t
    case Take(shard) => TakeInv(s, shard, queued);
    case Queue(q) =>
      if q in s.taken {
        QueueInv(s, q, queued);
        queued' := queued + 1;
      }
    case Deliver => DeliverInv(s, queued);
    case Lose => assert Apply(s, t) == s;
    case Sync(good) => SyncInv(s, good, queued);
    case Finish(shard) => FinishInv(s, shard, queued);
    case _ => CoordinatorInv(s, t, queued);
  }

  lemma {:induction false} RunInv(s: State, steps: seq<Step>, queued: nat) returns (queued': nat)
    requires Inv(s, queued) && AllKept(s, steps)
    ensures Inv(Run(s, steps), queued')
    decreases |steps|
  {
    queued' := queued;
    if steps != [] {
      queued' := StepInv(s, steps[0], queued);
      queued' := RunInv(Apply(s, steps[0]), steps[1..], queued');
    }
  }

  /** A shard that reported OK has every journal batch it ever numbered on disk,
      in every run in which frames are queued in sequence order and none is lost. */
  lemma OkMeansDurable(steps: seq<Step>, q: nat)
    requires AllKept(Start(), steps)
    ensures var s := Run(Start(), steps); q in s.owner && s.owner[q] in s.ok ==> q in s.durable
  {
    var _ := RunInv(Start(), steps, 0);
  }

  /** Acks never run ahead of the disk. */
  lemma AckedMeansDurable(steps: seq<Step>, q: nat)
    requires AllKept(Start(), steps)
    ensures var s := Run(Start(), steps); 1 <= q <= s.acked ==> q in s.durable
  {
    var _ := RunInv(Start(), steps, 0);
  }

  lemma RunCons(s: State, a: Step, rest: seq<Step>)
    ensures Run(s, [a] + rest) == Run(Apply(s, a), rest)
  {
    assert ([a] + rest)[1..] == rest;
  }

  // ---------------------------------------------------------------------
  // Exactly when the promise breaks
  // ---------------------------------------------------------------------

  /** Batch x is not on disk although its shard reported OK. */
  predicate Broken(s: State, x: nat) {
    x in s.owner && s.owner[x] in s.ok && x !in s.durable
  }

  /** The surroundings behave from here on, and still the promise breaks. */
  ghost predicate CanBreak(s: State) {
    exists steps, x :: AllKept(s, steps) && Broken(Run(s, steps), x)
  }

  lemma {:induction false} RunAppend(s: State, a: seq<Step>, b: seq<Step>)
    ensures Run(s, a + b) == Run(Run(s, a), b)
    ensures AllKept(s, a) && AllKept(Run(s, a), b) ==> AllKept(s, a + b)
    decreases |a|
  {
    if a == [] {
      assert a + b == b;
    } else {
      assert (a + b)[0] == a[0] && (a + b)[1..] == a[1..] + b;
      RunAppend(Apply(s, a[0]), a[1..], b);
    }
  }

  lemma RunStep(s: State, t: Step)
    requires Kept(s, t)
    ensures Run(s, [t]) == Apply(s, t) && AllKept(s, [t])
  {
    assert [t][1..] == [];
    assert Run(s, [t]) == Run(Apply(s, t), []);
    assert AllKept(Apply(s, t), []);
  }

  /** Two runs in a row. */
  lemma Join(s: State, a: seq<Step>, b: seq<Step>) returns (ab: seq<Step>)
    requires AllKept(s, a) && AllKept(Run(s, a), b)
    ensures AllKept(s, ab) && Run(s, ab) == Run(Run(s, a), b)
  {
    ab := a + b;
    RunAppend(s, a, b);
  }

  /** The coordinator appends every frame on the wire. */
  lemma {:induction false} DeliverAll(s: State) returns (steps: seq<Step>)
    ensures AllKept(s, steps)
    ensures var e := Run(s, steps);
            && e == s.(wire := [], written := e.written, pending := e.pending)
            && s.pending <= e.pending
            && (forall x :: x in e.written <==> x in s.written || x in s.wire)
            && (forall x :: x in s.wire ==> x <= e.pending)
    decreases |s.wire|
  {
    if s.wire == [] {
      steps := [];
    } else {
      RunStep(s, Deliver);
      var rest := DeliverAll(Apply(s, Deliver));
      steps := Join(s, [Deliver], rest);
      assert forall x :: x in s.wire <==> x == s.wire[0] || x in s.wire[1..];
    }
  }

  /** The agent reads every ack on the wire. */
  lemma {:induction false} AckAll(s: State) returns (steps: seq<Step>)
    ensures AllKept(s, steps)
    ensures var e := Run(s, steps);
            && e == s.(ackWire := [], acked := e.acked)
            && s.acked <= e.acked && (forall x :: x in s.ackWire ==> x <= e.acked)
    decreases |s.ackWire|
  {
    if s.ackWire == [] {
      steps := [];
    } else {
      RunStep(s, DeliverAck);
      var rest := AckAll(Apply(s, DeliverAck));
      steps := Join(s, [DeliverAck], rest);
      assert forall x :: x in s.ackWire <==> x == s.ackWire[0] || x in s.ackWire[1..];
    }
  }

  /** A flush in progress comes to its end. */
  lemma Settle(s: State) returns (steps: seq<Step>)
    ensures AllKept(s, steps)
    ensures var e := Run(s, steps);
            && e == s.(target := None, synced := e.synced, durable := e.durable, sent := e.sent, ackWire := e.ackWire)
            && e.durable <= s.durable + s.written
            && e.sent == if s.target.Some? then Max(s.sent, s.target.value) else s.sent
  {
    RunStep(s, Sync(true));
    var s1 := Apply(s, Sync(true));
    RunStep(s1, SendAck);
    steps := Join(s, [Sync(true)], [SendAck]);
  }

  /** One whole flush: everything written is synced and acked. */
  lemma FlushOnce(s: State) returns (steps: seq<Step>)
    requires s.target.None? && s.pending > s.sent
    ensures AllKept(s, steps)
    ensures Run(s, steps) == s.(target := None, synced := false, durable := s.written, sent := s.pending,
                                ackWire := s.ackWire + [s.pending])
  {
    RunStep(s, Capture);
    var s1 := Apply(s, Capture);
    RunStep(s1, Sync(true));
    var s2 := Apply(s1, Sync(true));
    RunStep(s2, SendAck);
    var two := Join(s, [Capture], [Sync(true)]);
    steps := Join(s, two, [SendAck]);
  }

  /** A frame on the wire with a number beyond all acks so far pulls the agent's
      high-water mark up to itself, and puts on disk only what the wire held. */
  lemma AckFrame(s: State, q: nat) returns (steps: seq<Step>)
    requires q in s.wire && s.sent < q && (s.target.Some? ==> s.target.value < q)
    requires s.durable <= s.written
    ensures AllKept(s, steps)
    ensures var e := Run(s, steps);
            && e.taken == s.taken && e.owner == s.owner && e.maxSeq == s.maxSeq && e.ok == s.ok && e.lastSeq == s.lastSeq
            && e.wire == [] && q <= e.acked
            && (forall x :: x in e.durable ==> x in s.written || x in s.wire)
  {
    var a := Settle(s);
    var s1 := Run(s, a);
    var b := DeliverAll(s1);
    var s2 := Run(s1, b);
    var c := FlushOnce(s2);
    var s3 := Run(s2, c);
    var d := AckAll(s3);
    var ab := Join(s, a, b);
    var abc := Join(s, ab, c);
    steps := Join(s, abc, d);
    assert s2.pending in s3.ackWire;
  }

  /** Shard h, idle and below the mark, reports OK. */
  lemma FinishOne(s: State, h: nat, x: nat) returns (steps: seq<Step>)
    requires !Busy(s, h) && MaxSeq(s, h) <= s.acked && x in s.owner && s.owner[x] == h && x !in s.durable
    ensures AllKept(s, steps) && Broken(Run(s, steps), x)
  {
    RunStep(s, Finish(h));
    steps := [Finish(h)];
  }

  // ---- a frame queued out of order ----

  lemma OutOfOrderBreaks(s: State, q: nat, queued: nat)
    requires Inv(s, queued) && q in s.taken && !InOrder(s, Queue(q))
    ensures CanBreak(Apply(s, Queue(q)))
  {
    var m := queued + 1;
    assert m in s.taken && m < q;
    var h := s.taken[m];
    var s1 := Apply(s, Queue(q));
    assert q in s1.wire by { assert s1.wire[|s.wire|] == q; }
    assert m in s1.taken && s1.taken[m] == h;
    var a := AckFrame(s1, q);
    var s2 := Run(s1, a);
    assert forall x :: x in s1.wire ==> x in s.wire || x == q;
    assert m !in s2.durable;
    assert InOrder(s2, Queue(m));
    RunStep(s2, Queue(m));
    var s3 := Apply(s2, Queue(m));
    assert !Busy(s3, h);
    assert s3.maxSeq[h] <= q;
    var b := FinishOne(s3, h, m);
    var am := Join(s1, a, [Queue(m)]);
    var steps := Join(s1, am, b);
    assert Broken(Run(s1, steps), m);
  }

  /** Queueing a frame leaves the promise breakable, however well the
      surroundings behave afterwards, if and only if it jumps the queue. */
  lemma QueueBreaksIff(s: State, q: nat, queued: nat)
    requires Inv(s, queued) && q in s.taken
    ensures CanBreak(Apply(s, Queue(q))) <==> !InOrder(s, Queue(q))
  {
    if InOrder(s, Queue(q)) {
      QueueInv(s, q, queued);
      KeptNeverBreaks(Apply(s, Queue(q)), queued + 1);
    } else {
      OutOfOrderBreaks(s, q, queued);
    }
  }

  lemma KeptNeverBreaks(s: State, queued: nat)
    requires Inv(s, queued)
    ensures !CanBreak(s)
  {
    forall steps, x | AllKept(s, steps) ensures !Broken(Run(s, steps), x) {
      var _ := RunInv(s, steps, queued);
    }
  }

  // ---- a frame lost ----

  /** The threads queue the numbers they hold, in order. */
  lemma {:induction false} QueueAll(s: State, from: nat) returns (steps: seq<Step>)
    requires from <= s.lastSeq && (forall q :: q in s.taken <==> from < q <= s.lastSeq)
    requires forall h :: h in s.maxSeq ==> s.maxSeq[h] <= s.lastSeq
    ensures AllKept(s, steps)
    ensures var e := Run(s, steps);
            && e == s.(taken := map[], wire := e.wire, maxSeq := e.maxSeq)
            && (forall h :: h in e.maxSeq ==> e.maxSeq[h] <= s.lastSeq)
            && (forall x :: x in e.wire ==> x in s.wire || x in s.taken)
    decreases s.lastSeq - from
  {
    if from == s.lastSeq {
      steps := [];
      assert s.taken == map[];
    } else {
      var m := from + 1;
      assert m in s.taken;
      RunStep(s, Queue(m));
      var s1 := Apply(s, Queue(m));
      var rest := QueueAll(s1, m);
      steps := Join(s, [Queue(m)], rest);
      assert forall x :: x in s1.wire ==> x in s.wire || x == m;
    }
  }

  /** Shard h, idle, journals one batch more. */
  lemma OneMore(s: State, h: nat) returns (steps: seq<Step>)
    requires s.taken == map[] && h !in s.ok
    requires forall k :: k in s.maxSeq ==> s.maxSeq[k] <= s.lastSeq
    ensures AllKept(s, steps)
    ensures var e := Run(s, steps);
            && e == s.(lastSeq := s.lastSeq + 1, taken := map[], owner := s.owner[s.lastSeq + 1 := h],
                       wire := s.wire + [s.lastSeq + 1], maxSeq := s.maxSeq[h := s.lastSeq + 1])
  {
    var q := s.lastSeq + 1;
    assert !Busy(s, h);
    RunStep(s, Take(h));
    var s1 := Apply(s, Take(h));
    assert s1.taken == map[q := h];
    RunStep(s1, Queue(q));
    steps := Join(s, [Take(h)], [Queue(q)]);
    assert s1.taken - {q} == map[];
  }

  lemma LossBreaks(s: State, queued: nat)
    requires Inv(s, queued) && s.wire != []
    ensures CanBreak(Apply(s, Lose))
  {
    var x := s.wire[0];
    var h := s.owner[x];
    assert x == queued - |s.wire| + 1;
    var s1 := Apply(s, Lose);
    assert forall y :: y in s1.wire ==> y > x by {
      forall y | y in s1.wire ensures y > x {
        var i :| 0 <= i < |s1.wire| && s1.wire[i] == y;
        assert s1.wire[i] == s.wire[i + 1];
      }
    }
    var a := QueueAll(s1, queued);
    var s2 := Run(s1, a);
    var b := OneMore(s2, h);
    var s3 := Run(s2, b);
    var q := s2.lastSeq + 1;
    assert q in s3.wire by { assert s3.wire[|s2.wire|] == q; }
    var c := AckFrame(s3, q);
    var s4 := Run(s3, c);
    assert x !in s3.written && x !in s3.wire;
    var d := FinishOne(s4, h, x);
    var ab := Join(s1, a, b);
    var abc := Join(s1, ab, c);
    var steps := Join(s1, abc, d);
    assert Broken(Run(s1, steps), x);
  }

  /** A failed session leaves the promise breakable if and only if it had frames
      to discard: the next ack covers the numbers that were lost. */
  lemma LossBreaksIff(s: State, queued: nat)
    requires Inv(s, queued)
    ensures CanBreak(Apply(s, Lose)) <==> s.wire != []
  {
    if s.wire == [] {
      KeptNeverBreaks(s, queued);
    } else {
      LossBreaks(s, queued);
    }
  }

  // ---------------------------------------------------------------------
  // What can always happen, and what never does
  // ---------------------------------------------------------------------

  /** Whatever has happened so far, every shard can still report OK, with another
      batch of its own and all it numbered before on disk. */
  lemma EveryShardCanReport(s: State, h: nat, queued: nat) returns (steps: seq<Step>)
    requires Inv(s, queued) && h !in s.ok
    ensures AllKept(s, steps)
    ensures var e := Run(s, steps);
            && h in e.ok && (forall q :: q in e.owner && e.owner[q] == h ==> q in e.durable)
            && exists q :: q in e.owner && q !in s.owner && e.owner[q] == h
  {
    var a := QueueAll(s, queued);
    var s1 := Run(s, a);
    var b := OneMore(s1, h);
    var s2 := Run(s1, b);
    var q := s1.lastSeq + 1;
    assert q in s2.wire by { assert s2.wire[|s1.wire|] == q; }
    var ab := Join(s, a, b);
    var _ := RunInv(s, ab, queued);
    var c := AckFrame(s2, q);
    var s3 := Run(s2, c);
    assert !Busy(s3, h) && MaxSeq(s3, h) <= s3.acked;
    RunStep(s3, Finish(h));
    var abc := Join(s, ab, c);
    steps := Join(s, abc, [Finish(h)]);
    var _ := RunInv(s, steps, queued);
    assert q !in s.owner && Run(s, steps).owner[q] == h;
  }

  /** Only a sync that succeeds, of a flush in progress, puts batches on disk; only
      a synced flush sends an ack, for the mark it captured; only a delivered ack
      moves the agent's mark; and a flush starts only with something to ack and no
      other in progress. */
  lemma OnlyGoodSyncsCount(s: State, t: Step)
    ensures var e := Apply(s, t);
            && (e.durable != s.durable ==> t == Sync(true) && s.target.Some? && !s.synced && e.durable == s.written)
            && (e.sent != s.sent || |e.ackWire| > |s.ackWire| ==>
                  t == SendAck && s.target.Some? && s.synced && e.ackWire == s.ackWire + [s.target.value])
            && (e.synced && !s.synced ==> t == Sync(true) && s.target.Some?)
            && (e.acked != s.acked ==> t == DeliverAck && e.acked in s.ackWire)
            && (t == Sync(false) && s.target.Some? && !s.synced ==> e.target.None?)
            && (e.target != s.target && e.target.Some? ==>
                  t == Capture && s.target.None? && s.pending > s.sent && e.target == Some(s.pending) && !e.synced)
  {
  }

  // ---------------------------------------------------------------------
  // Two runs
  // ---------------------------------------------------------------------

  function TwoTaken(): State {
    Start().(lastSeq := 2, taken := map[1 := 1, 2 := 2], owner := map[1 := 1, 2 := 2])
  }

  lemma TwoTakenInv()
    ensures Run(Start(), [Take(1), Take(2)]) == TwoTaken() && Inv(TwoTaken(), 0)
  {
    var a := Apply(Start(), Take(1));
    assert a == Start().(lastSeq := 1, taken := map[1 := 1], owner := map[1 := 1]);
    assert !Busy(a, 2);
    assert Apply(a, Take(2)) == TwoTaken();
    RunCons(Start(), Take(1), [Take(2)]);
    RunCons(a, Take(2), []);
    assert [Take(1)] + [Take(2)] == [Take(1), Take(2)] && [Take(2)] + [] == [Take(2)];
  }

  /** Out of order: thread 2 queues its frame before thread 1, whose shard then
      reports OK while its batch is still in the outbox. */
  lemma RaceReportsTooEarly()
    ensures CanBreak(Apply(Run(Start(), [Take(1), Take(2)]), Queue(2)))
  {
    TwoTakenInv();
    QueueBreaksIff(TwoTaken(), 2, 0);
  }

  /** In order, but the session fails with frame 1 in hand: the ack for a later
      frame covers it. */
  lemma LostFrameReportsTooEarly()
    ensures CanBreak(Apply(Run(Start(), [Take(1), Queue(1)]), Lose))
  {
    var a := Apply(Start(), Take(1));
    assert a == Start().(lastSeq := 1, taken := map[1 := 1], owner := map[1 := 1]);
    var b := Apply(a, Queue(1));
    assert b == Start().(lastSeq := 1, owner := map[1 := 1], wire := [1], maxSeq := map[1 := 1]);
    RunCons(Start(), Take(1), [Queue(1)]);
    RunCons(a, Queue(1), []);
    assert [Take(1)] + [Queue(1)] == [Take(1), Queue(1)] && [Queue(1)] + [] == [Queue(1)];
    assert Inv(b, 1);
    LossBreaksIff(b, 1);
  }
}
