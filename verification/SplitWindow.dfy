/** The ShardSplit outbox machinery (agent/src/split.c): frames are shipped
    without waiting, at most SPLIT_WINDOW acks are outstanding, and every ack is
    awaited, oldest first, before the shard reports its result. */
module SplitWindow {

  const SPLIT_WINDOW: nat := 128

  /** What the surroundings do: whether the wait for the ack of (this shard,
      seq) ends with it. A wait that times out or is interrupted does not. */
  type Acks = nat -> bool

  /** FIFO: the waiters are sequence numbers already used, oldest first. */
  ghost predicate InOrder(waiting: seq<nat>, next: nat) {
    && (forall i :: 0 <= i < |waiting| ==> 1 <= waiting[i] < next)
    && (forall i, j :: 0 <= i < j < |waiting| ==> waiting[i] < waiting[j])
  }

  /** Every sequence number used is acked or still awaited. */
  ghost predicate Covered(acks: Acks, waiting: seq<nat>, next: nat) {
    forall s :: 1 <= s < next ==> acks(s) || s in waiting
  }

  function At(head: nat, i: nat): (r: nat)
    ensures r < SPLIT_WINDOW
  {
    (head + i) % SPLIT_WINDOW
  }

  /** buf holds the waiters, starting at head and wrapping around. */
  ghost predicate Ring(buf: seq<nat>, head: nat, waiting: seq<nat>) {
    && |buf| == SPLIT_WINDOW && head < SPLIT_WINDOW && |waiting| <= SPLIT_WINDOW
    && forall i :: 0 <= i < |waiting| ==> buf[At(head, i)] == waiting[i]
  }

  lemma RingPop(buf: seq<nat>, head: nat, waiting: seq<nat>)
    requires Ring(buf, head, waiting) && waiting != []
    ensures buf[head] == waiting[0]
    ensures Ring(buf, At(head, 1), waiting[1..])
  {
    assert At(head, 0) == head;
    forall i | 0 <= i < |waiting[1..]| ensures buf[At(At(head, 1), i)] == waiting[1..][i] {
      assert At(At(head, 1), i) == At(head, i + 1);
    }
  }

  lemma RingPush(buf: seq<nat>, head: nat, waiting: seq<nat>, x: nat)
    requires Ring(buf, head, waiting) && |waiting| < SPLIT_WINDOW
    ensures Ring(buf[At(head, |waiting|) := x], head, waiting + [x])
  {
    var buf', more := buf[At(head, |waiting|) := x], waiting + [x];
    forall i | 0 <= i < |more| ensures buf'[At(head, i)] == more[i] {
      if i < |waiting| {
        assert At(head, i) != At(head, |waiting|);
      }
    }
  }

  lemma PushOrder(acks: Acks, waiting: seq<nat>, next: nat)
    requires InOrder(waiting, next) && next >= 1
    ensures InOrder(waiting + [next], next + 1)
    ensures Covered(acks, waiting, next) ==> Covered(acks, waiting + [next], next + 1)
  {
    assert next in waiting + [next];
    assert forall s :: s in waiting ==> s in waiting + [next];
  }

  class Window {
    const acks: Acks
    const infl: array<nat>        // ring of sequence numbers awaiting an ack
    var head: nat
    var count: nat
    var splitSeq: nat             // next sequence number
    var fatal: bool
    var outbox: seq<nat>          // frames pushed, by sequence number

    ghost var waiting: seq<nat>   // the ring's contents, oldest first

    ghost predicate Valid()
      reads this, infl
    {
      && Ring(infl[..], head, waiting) && |waiting| == count
      && splitSeq >= 1 && |outbox| == splitSeq - 1
      && InOrder(waiting, splitSeq)
      && (!fatal ==> Covered(acks, waiting, splitSeq))
    }

    constructor (acks: Acks)
      ensures Valid() && fresh(infl) && this.acks == acks
      ensures splitSeq == 1 && waiting == [] && !fatal
    {
      this.acks := acks;
      infl := new nat[SPLIT_WINDOW];
      head, count, splitSeq, fatal, outbox, waiting := 0, 0, 1, false, [], [];
    }

    /** Takes the oldest waiter out of the ring and waits for it. */
    method AwaitOldest()
      requires Valid() && count > 0
      modifies this`head, this`count, this`fatal, this`waiting
      ensures Valid()
      ensures waiting == old(waiting)[1..]
      ensures fatal == (old(fatal) || !acks(old(waiting)[0]))
    {
      RingPop(infl[..], head, waiting);
      var w := infl[head];
      head := (head + 1) % SPLIT_WINDOW;
      count := count - 1;
      waiting := waiting[1..];
      if !acks(w) {
        fatal := true;
      }
    }

    /** ship_split; haveWaiter says whether a waiter could be allocated. */
    method ShipSplit(haveWaiter: bool)
      requires Valid()
      modifies this, infl
      ensures Valid() && splitSeq == old(splitSeq) + 1
      ensures outbox == old(outbox) + [old(splitSeq)]
      ensures old(fatal) ==> fatal
      ensures fatal ==> old(fatal) || !haveWaiter || exists s :: 1 <= s < old(splitSeq) && !acks(s)
      ensures haveWaiter ==>
        waiting == (if old(count) == SPLIT_WINDOW then old(waiting)[1..] else old(waiting)) + [old(splitSeq)]
      ensures !haveWaiter ==> fatal
    {
      if count == SPLIT_WINDOW {
        assert 1 <= waiting[0] < splitSeq;
        AwaitOldest();
      }
      outbox := outbox + [splitSeq];
      if !haveWaiter {
        fatal := true;
        splitSeq := splitSeq + 1;
        return;
      }
      Enqueue();
    }

    /** The new waiter takes the slot after the youngest. */
    method Enqueue()
      requires Ring(infl[..], head, waiting) && |waiting| == count < SPLIT_WINDOW
      requires splitSeq >= 1 && |outbox| == splitSeq
      requires InOrder(waiting, splitSeq) && (!fatal ==> Covered(acks, waiting, splitSeq))
      modifies this`count, this`splitSeq, this`waiting, infl
      ensures Valid() && waiting == old(waiting) + [old(splitSeq)] && splitSeq == old(splitSeq) + 1
    {
      ghost var at := At(head, count);
      RingPush(infl[..], head, waiting, splitSeq);
      PushOrder(acks, waiting, splitSeq);
      infl[(head + count) % SPLIT_WINDOW] := splitSeq;
      assert infl[..] == old(infl[..])[at := splitSeq];
      waiting := waiting + [splitSeq];
      count := count + 1;
      splitSeq := splitSeq + 1;
    }

    /** drain_splits: afterwards a shard that is not failed has seen the ack of
        every split it ever shipped. */
    method DrainSplits()
      requires Valid()
      modifies this`head, this`count, this`fatal, this`waiting
      ensures Valid() && count == 0 && splitSeq == old(splitSeq)
      ensures !fatal ==> forall s :: 1 <= s < splitSeq ==> acks(s)
      ensures fatal ==> old(fatal) || exists s :: 1 <= s < splitSeq && !acks(s)
      ensures old(fatal) ==> fatal
    {
      while count > 0
        invariant Valid() && splitSeq == old(splitSeq)
        invariant fatal ==> old(fatal) || exists s :: 1 <= s < splitSeq && !acks(s)
        invariant old(fatal) ==> fatal
        decreases count
      {
        AwaitOldest();
      }
    }
  }

  /** A shard's life as the walker, entry-list and delete executors run it: ship
      any number of frames, drain, then wait for the journal. OK is reported
      exactly when every split ack and the journal ack arrived. */
  method RunShard(acks: Acks, frames: nat, haveWaiter: nat -> bool, journalAcked: bool) returns (ok: bool)
    ensures ok <==> journalAcked
                    && (forall s :: 1 <= s <= frames ==> acks(s))
                    && (forall k :: 0 <= k < frames ==> haveWaiter(k))
  {
    var w := new Window(acks);
    for k := 0 to frames
      invariant w.Valid() && fresh(w) && fresh(w.infl) && w.splitSeq == k + 1
      invariant !w.fatal ==> forall j :: 0 <= j < k ==> haveWaiter(j)
      invariant w.fatal ==> (exists j :: 0 <= j < k && !haveWaiter(j)) || (exists s :: 1 <= s <= k && !acks(s))
    {
      ghost var was := w.fatal;
      w.ShipSplit(haveWaiter(k));
      if !haveWaiter(k) {
        assert exists j :: 0 <= j < k + 1 && !haveWaiter(j);
      }
    }
    w.DrainSplits();
    ok := !w.fatal && journalAcked;
  }
}
