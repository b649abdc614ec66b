/** The agent's lease table (agent/src/state.c lease_*): one array of slots with a
    free list, a doubly linked active list and hash chains threaded through it,
    proved to be a plain newest-first list of leases. */
module LeaseTable {
  import opened LeaseLists

  const MAX_LEASES: nat := 8192

  datatype Lease = Lease(leaseId: nat, shardId: nat, jobId: nat, running: bool)

  // ---------------------------------------------------------------------
  // The plain list
  // ---------------------------------------------------------------------

  function Added(held: seq<Lease>, l: Lease): seq<Lease> {
    if |held| == MAX_LEASES then held else [l] + held
  }

  /** Drop the newest lease with this id. */
  function Removed(held: seq<Lease>, id: nat): seq<Lease> {
    if held == [] then []
    else if held[0].leaseId == id then held[1..]
    else [held[0]] + Removed(held[1..], id)
  }

  /** Mark the newest lease with this id as running. */
  function Started(held: seq<Lease>, id: nat): seq<Lease> {
    if held == [] then []
    else if held[0].leaseId == id then [held[0].(running := true)] + held[1..]
    else [held[0]] + Started(held[1..], id)
  }

  /** Position of the newest lease with this id, or the length. */
  function Newest(held: seq<Lease>, id: nat): (k: nat)
    ensures k <= |held| && (k < |held| ==> held[k].leaseId == id)
    ensures forall q :: 0 <= q < k ==> held[q].leaseId != id
  {
    if held == [] || held[0].leaseId == id then 0 else 1 + Newest(held[1..], id)
  }

  /** Removing takes out one lease, the newest with that id, and nothing else. */
  lemma {:induction false} RemovedExactly(held: seq<Lease>, id: nat)
    ensures var k := Newest(held, id);
            Removed(held, id) == if k < |held| then held[..k] + held[k + 1..] else held
  {
    if held != [] && held[0].leaseId != id {
      var tail := held[1..];
      RemovedExactly(tail, id);
      var k := Newest(tail, id);
      if k < |tail| {
        assert [held[0]] + (tail[..k] + tail[k + 1..]) == held[..k + 1] + held[k + 2..];
      }
    }
  }

  lemma {:induction false} StartedExactly(held: seq<Lease>, id: nat)
    ensures var k := Newest(held, id);
            Started(held, id) == if k < |held| then held[k := held[k].(running := true)] else held
  {
    if held != [] && held[0].leaseId != id {
      StartedExactly(held[1..], id);
    }
  }

  /** A lease granted and released again leaves the list as it was, unless the
      table was full: then an older lease with the same id is lost. */
  lemma AddThenRemove(held: seq<Lease>, l: Lease)
    ensures Removed(Added(held, l), l.leaseId) == held
       <==> |held| != MAX_LEASES || forall k :: 0 <= k < |held| ==> held[k].leaseId != l.leaseId
  {
    RemovedExactly(held, l.leaseId);
    if |held| != MAX_LEASES {
      assert ([l] + held)[1..] == held;
    }
  }

  // ---------------------------------------------------------------------
  // The table
  // ---------------------------------------------------------------------

  ghost predicate Chains(es: seq<Entry>, hs: seq<int>, active: seq<nat>) {
    forall b :: 0 <= b < |hs| ==> Linked(es, HashLink, hs[b], Bucketed(es, active, b))
  }

  ghost predicate Table(es: seq<Entry>, hs: seq<int>, freeHead: int, activeHead: int, free: seq<nat>, active: seq<nat>) {
    && |es| == MAX_LEASES && |hs| == BUCKETS
    && Linked(es, FreeLink, freeHead, free)
    && Linked(es, ActiveLink, activeHead, active)
    && BackLinked(es, active)
    && Chains(es, hs, active)
    && (forall i :: 0 <= i < MAX_LEASES ==> (i in free <==> i !in active))
    && |free| + |active| == MAX_LEASES
  }

  function View(es: seq<Entry>, i: nat): Lease {
    if i < |es| then Lease(es[i].leaseId, es[i].shardId, es[i].jobId, es[i].running) else Lease(0, 0, 0, false)
  }

  function HeldOf(es: seq<Entry>, active: seq<nat>): (r: seq<Lease>)
    ensures |r| == |active| && forall k :: 0 <= k < |r| ==> r[k] == View(es, active[k])
  {
    if active == [] then [] else [View(es, active[0])] + HeldOf(es, active[1..])
  }

  lemma HeldFrame(es: seq<Entry>, es': seq<Entry>, active: seq<nat>)
    requires forall k :: 0 <= k < |active| ==> View(es', active[k]) == View(es, active[k])
    ensures HeldOf(es', active) == HeldOf(es, active)
  {
  }

  /** Newest among the leases is first among the slots. */
  lemma {:induction false} NewestIsFirst(es: seq<Entry>, active: seq<nat>, id: nat)
    requires Within(active, |es|)
    ensures Newest(HeldOf(es, active), id) == First(es, active, id)
  {
    if active != [] {
      NewestIsFirst(es, active[1..], id);
      assert HeldOf(es, active)[1..] == HeldOf(es, active[1..]);
    }
  }

  lemma HeldCut(es: seq<Entry>, active: seq<nat>, id: nat)
    requires Slots(active, |es|)
    ensures var k := First(es, active, id);
            Removed(HeldOf(es, active), id) == if k < |active| then HeldOf(es, Cut(active, k)) else HeldOf(es, active)
  {
    var k := First(es, active, id);
    var held := HeldOf(es, active);
    NewestIsFirst(es, active, id);
    RemovedExactly(held, id);
    if k < |active| { HeldWithout(es, active, k); }
  }

  lemma HeldWithout(es: seq<Entry>, active: seq<nat>, k: nat)
    requires k < |active|
    ensures HeldOf(es, active)[..k] + HeldOf(es, active)[k + 1..] == HeldOf(es, Cut(active, k))
  {
    var held, a, b := HeldOf(es, active), Cut(active, k), HeldOf(es, Cut(active, k));
    var c := held[..k] + held[k + 1..];
    assert |b| == |c|;
    forall q | 0 <= q < |b| ensures b[q] == c[q] {
      var r := if q < k then q else q + 1;
      assert a[q] == active[r] && c[q] == held[r];
    }
  }

  lemma HeldStart(es: seq<Entry>, es': seq<Entry>, active: seq<nat>, id: nat)
    requires Slots(active, |es|) && |es'| == |es|
    requires var k := First(es, active, id);
             forall q :: 0 <= q < |active| ==>
               View(es', active[q]) == if q == k then View(es, active[q]).(running := true) else View(es, active[q])
    ensures HeldOf(es', active) == Started(HeldOf(es, active), id)
  {
    NewestIsFirst(es, active, id);
    StartedExactly(HeldOf(es, active), id);
  }

  /** Marking the slot found marks that one lease. */
  lemma MarkedOne(es: seq<Entry>, es': seq<Entry>, active: seq<nat>, id: nat, i: int)
    requires Slots(active, |es|) && i == At(active, First(es, active, id))
    requires es' == if 0 <= i < |es| then es[i := es[i].(running := true)] else es
    ensures var k := First(es, active, id);
            forall q :: 0 <= q < |active| ==>
              View(es', active[q]) == if q == k then View(es, active[q]).(running := true) else View(es, active[q])
  {
    var k := First(es, active, id);
    if k < |active| { OthersDiffer(active, k); }
  }

  // ---------------------------------------------------------------------
  // Adding
  // ---------------------------------------------------------------------

  /** The slots after lease_add put l into slot i. */
  ghost predicate SlotAdded(es: seq<Entry>, es': seq<Entry>, i: nat, l: Lease, activeHead: int, chainHead: int) {
    && |es'| == |es| && i < |es|
    && es'[i] == Entry(l.leaseId, l.shardId, l.jobId, l.running, es[i].freeNext, activeHead, -1, chainHead)
    && (forall k :: 0 <= k < |es| && k != i ==>
          es'[k] == if k == activeHead then es[k].(activePrev := i) else es[k])
  }

  lemma AddHomeChain(es: seq<Entry>, es': seq<Entry>, head: int, active: seq<nat>, i: nat, b: nat)
    requires Linked(es, HashLink, head, Bucketed(es, active, b)) && |es'| == |es|
    requires i < |es| && i !in active && InBucket(es', i, b) && es'[i].hashNext == head
    requires forall x :: x in active && x < |es| ==> es'[x].leaseId == es[x].leaseId && es'[x].hashNext == es[x].hashNext
    ensures Linked(es', HashLink, i, Bucketed(es', [i] + active, b))
  {
    BucketedFrame(es, es', active, b);
    LinkedPush(es, es', HashLink, head, Bucketed(es, active, b), i);
    assert ([i] + active)[1..] == active;
  }

  lemma AddOtherChain(es: seq<Entry>, es': seq<Entry>, head: int, active: seq<nat>, i: nat, b: nat)
    requires Linked(es, HashLink, head, Bucketed(es, active, b)) && |es'| == |es|
    requires !InBucket(es', i, b)
    requires forall x :: x in active && x < |es| ==> es'[x].leaseId == es[x].leaseId && es'[x].hashNext == es[x].hashNext
    ensures Linked(es', HashLink, head, Bucketed(es', [i] + active, b))
  {
    BucketedFrame(es, es', active, b);
    LinkedFrame(es, es', HashLink, head, Bucketed(es, active, b));
    assert ([i] + active)[1..] == active;
  }

  lemma AddChains(es: seq<Entry>, es': seq<Entry>, hs: seq<int>, active: seq<nat>, i: nat, home: nat)
    requires home < |hs| && Chains(es, hs, active) && |es'| == |es|
    requires i < |es| && i !in active && InBucket(es', i, home) && es'[i].hashNext == hs[home]
    requires forall x :: x in active && x < |es| ==> es'[x].leaseId == es[x].leaseId && es'[x].hashNext == es[x].hashNext
    ensures Chains(es', hs[home := i], [i] + active)
  {
    forall b | 0 <= b < |hs| ensures Linked(es', HashLink, hs[home := i][b], Bucketed(es', [i] + active, b)) {
      if b == home {
        AddHomeChain(es, es', hs[b], active, i, b);
      } else {
        AddOtherChain(es, es', hs[b], active, i, b);
      }
    }
  }

  lemma AddTable(es: seq<Entry>, es': seq<Entry>, hs: seq<int>, freeHead: int, activeHead: int,
                 free: seq<nat>, active: seq<nat>, l: Lease)
    requires Table(es, hs, freeHead, activeHead, free, active) && free != []
    requires SlotAdded(es, es', free[0], l, activeHead, hs[HashBucket(l.leaseId)])
    ensures Table(es', hs[HashBucket(l.leaseId) := free[0]], es[free[0]].freeNext, free[0], free[1..], [free[0]] + active)
    ensures HeldOf(es', [free[0]] + active) == [l] + HeldOf(es, active)
  {
    var i := free[0];
    assert i in free && i !in active;
    AddChains(es, es', hs, active, i, HashBucket(l.leaseId));
    LinkedPop(es, FreeLink, freeHead, free);
    LinkedFrame(es, es', FreeLink, es[i].freeNext, free[1..]);
    LinkedPush(es, es', ActiveLink, activeHead, active, i);
    BackLinkedPush(es, es', active, i);
    PopMembers(free);
    AddHeld(es, es', active, i, l);
  }

  lemma AddHeld(es: seq<Entry>, es': seq<Entry>, active: seq<nat>, i: nat, l: Lease)
    requires View(es', i) == l
    requires forall k :: 0 <= k < |active| ==> View(es', active[k]) == View(es, active[k])
    ensures HeldOf(es', [i] + active) == [l] + HeldOf(es, active)
  {
    HeldFrame(es, es', active);
    assert ([i] + active)[1..] == active;
  }

  lemma PopMembers(list: seq<nat>)
    requires list != [] && Distinct(list)
    ensures forall i :: i in list[1..] <==> i in list && i != list[0]
  {
    DistinctPop(list);
    forall i | i in list && i != list[0] ensures i in list[1..] {
      var k :| 0 <= k < |list| && list[k] == i;
      assert list[1..][k - 1] == i;
    }
  }

  // ---------------------------------------------------------------------
  // Removing
  // ---------------------------------------------------------------------

  /** The slots after lease_remove took out active[k], q-th of its chain. */
  ghost predicate SlotRemoved(es: seq<Entry>, es': seq<Entry>, active: seq<nat>, k: nat, chain: seq<nat>, q: nat, freeHead: int)
    requires k < |active| && q < |chain| && Slots(active, |es|)
  {
    SlotUnlinked(es, es', active, k, chain, q) && es'[active[k]].freeNext == freeHead
  }

  /** All links that led to active[k] skip it now. */
  ghost predicate SlotUnlinked(es: seq<Entry>, es': seq<Entry>, active: seq<nat>, k: nat, chain: seq<nat>, q: nat)
    requires k < |active| && q < |chain| && Slots(active, |es|)
  {
    && |es'| == |es|
    && (forall x :: 0 <= x < |es| && x != active[k] ==>
          es'[x] == es[x].(hashNext := if x == At(chain, q - 1) then At(chain, q + 1) else es[x].hashNext,
                           activeNext := if x == At(active, k - 1) then At(active, k + 1) else es[x].activeNext,
                           activePrev := if x == At(active, k + 1) then At(active, k - 1) else es[x].activePrev))
  }

  ghost predicate ChainCut(es: seq<Entry>, es1: seq<Entry>, chain: seq<nat>, q: nat) {
    && |es1| == |es| && q < |chain| && Slots(chain, |es|)
    && es1 == if q == 0 then es else es[chain[q - 1] := es[chain[q - 1]].(hashNext := At(chain, q + 1))]
  }

  /** The chain's head after the q-th slot of it was cut out. */
  ghost predicate HeadCut(hs: seq<int>, hs': seq<int>, b: nat, chain: seq<nat>, q: nat) {
    b < |hs| && hs' == if q == 0 then hs[b := At(chain, 1)] else hs
  }

  /** The active links after active[k] was cut out. */
  ghost predicate ActiveCut(es: seq<Entry>, es': seq<Entry>, active: seq<nat>, k: nat) {
    && |es'| == |es| && k < |active|
    && (forall x :: 0 <= x < |es| && x != active[k] ==>
          es'[x] == es[x].(
            activeNext := if x == At(active, k - 1) then At(active, k + 1) else es[x].activeNext,
            activePrev := if x == At(active, k + 1) then At(active, k - 1) else es[x].activePrev))
  }

  lemma ChainCutKeepsActive(es: seq<Entry>, es1: seq<Entry>, activeHead: int, active: seq<nat>, chain: seq<nat>, q: nat)
    requires ChainCut(es, es1, chain, q)
    requires Linked(es, ActiveLink, activeHead, active) && BackLinked(es, active)
    ensures Linked(es1, ActiveLink, activeHead, active) && BackLinked(es1, active)
  {
    forall x | 0 <= x < |es| ensures es1[x].activeNext == es[x].activeNext && es1[x].activePrev == es[x].activePrev {
    }
    LinkedFrame(es, es1, ActiveLink, activeHead, active);
  }

  lemma BothUnlinked(es: seq<Entry>, es1: seq<Entry>, es2: seq<Entry>, active: seq<nat>, k: nat, chain: seq<nat>, q: nat)
    requires ChainCut(es, es1, chain, q) && ActiveCut(es1, es2, active, k) && Slots(active, |es|)
    ensures SlotUnlinked(es, es2, active, k, chain, q)
  {
  }

  lemma SlotReset(es: seq<Entry>, es1: seq<Entry>, es2: seq<Entry>, active: seq<nat>, k: nat, chain: seq<nat>, q: nat, freeHead: int)
    requires k < |active| && q < |chain| && Slots(active, |es|) && SlotUnlinked(es, es1, active, k, chain, q)
    requires es2 == es1[active[k] := es1[active[k]].(leaseId := 0, freeNext := freeHead)]
    ensures SlotRemoved(es, es2, active, k, chain, q, freeHead)
  {
  }

  lemma RemoveHomeChain(es: seq<Entry>, es': seq<Entry>, head: int, head': int, active: seq<nat>, k: nat, freeHead: int, home: nat)
    requires Slots(active, |es|) && k < |active| && InBucket(es, active[k], home)
    requires Linked(es, HashLink, head, Bucketed(es, active, home))
    requires var q := BucketPos(es, active, k, home);
             var chain := Bucketed(es, active, home);
             && q < |chain| && SlotRemoved(es, es', active, k, chain, q, freeHead)
             && head' == if q == 0 then At(chain, 1) else head
    ensures Linked(es', HashLink, head', Bucketed(es', Cut(active, k), home))
  {
    var q := BucketPos(es, active, k, home);
    var chain := Bucketed(es, active, home);
    CutOwnBucket(es, active, k, home);
    CutSlots(active, k, |es|);
    BucketedFrame(es, es', Cut(active, k), home);
    OthersDiffer(chain, q);
    OthersDiffer(chain, if q > 0 then q - 1 else 0);
    LinkedCut(es, es', HashLink, head, head', chain, q);
  }

  lemma RemoveOtherChain(es: seq<Entry>, es': seq<Entry>, head: int, active: seq<nat>, k: nat, own: seq<nat>, q: nat, freeHead: int, home: nat, b: nat)
    requires Slots(active, |es|) && k < |active| && !InBucket(es, active[k], b) && b != home
    requires Linked(es, HashLink, head, Bucketed(es, active, b))
    requires q < |own| && SlotRemoved(es, es', active, k, own, q, freeHead)
    requires forall x :: x in own ==> InBucket(es, x, home)
    ensures Linked(es', HashLink, head, Bucketed(es', Cut(active, k), b))
  {
    CutSlots(active, k, |es|);
    BucketedFrame(es, es', Cut(active, k), b);
    CutOtherBucket(es, active, k, b);
    var chain := Bucketed(es, active, b);
    assert q > 0 ==> own[q - 1] in own;
    forall p | 0 <= p < |chain| ensures es'[chain[p]].hashNext == es[chain[p]].hashNext {
      assert chain[p] in chain && InBucket(es, chain[p], b);
    }
    LinkedFrame(es, es', HashLink, head, chain);
  }

  lemma RemoveChains(es: seq<Entry>, es': seq<Entry>, hs: seq<int>, hs': seq<int>, active: seq<nat>, k: nat, freeHead: int, home: nat)
    requires Slots(active, |es|) && Chains(es, hs, active) && k < |active|
    requires home < |hs| && InBucket(es, active[k], home)
    requires var q := BucketPos(es, active, k, home);
             var chain := Bucketed(es, active, home);
             && q < |chain| && SlotRemoved(es, es', active, k, chain, q, freeHead)
             && hs' == if q == 0 then hs[home := At(chain, 1)] else hs
    ensures Chains(es', hs', Cut(active, k))
  {
    forall b | 0 <= b < |hs'| ensures Linked(es', HashLink, hs'[b], Bucketed(es', Cut(active, k), b)) {
      if b == home {
        RemoveHomeChain(es, es', hs[b], hs'[b], active, k, freeHead, home);
      } else {
        RemoveOtherChain(es, es', hs[b], active, k, Bucketed(es, active, home), BucketPos(es, active, k, home), freeHead, home, b);
      }
    }
  }

  lemma RemoveActive(es: seq<Entry>, es': seq<Entry>, activeHead: int, active: seq<nat>, k: nat, chain: seq<nat>, q: nat, freeHead: int)
    requires Linked(es, ActiveLink, activeHead, active)
    requires k < |active| && q < |chain| && SlotRemoved(es, es', active, k, chain, q, freeHead)
    ensures Linked(es', ActiveLink, if k == 0 then At(active, 1) else activeHead, Cut(active, k))
  {
    OthersDiffer(active, k);
    OthersDiffer(active, if k > 0 then k - 1 else 0);
    LinkedCut(es, es', ActiveLink, activeHead, if k == 0 then At(active, 1) else activeHead, active, k);
  }

  lemma RemoveBack(es: seq<Entry>, es': seq<Entry>, active: seq<nat>, k: nat, chain: seq<nat>, q: nat, freeHead: int)
    requires BackLinked(es, active)
    requires k < |active| && q < |chain| && SlotRemoved(es, es', active, k, chain, q, freeHead)
    ensures BackLinked(es', Cut(active, k))
  {
    OthersDiffer(active, k);
    OthersDiffer(active, if k + 1 < |active| then k + 1 else 0);
    BackLinkedCut(es, es', active, k);
  }

  lemma RemoveHeld(es: seq<Entry>, es': seq<Entry>, active: seq<nat>, k: nat, chain: seq<nat>, q: nat, freeHead: int)
    requires Slots(active, |es|)
    requires k < |active| && q < |chain| && SlotRemoved(es, es', active, k, chain, q, freeHead)
    ensures HeldOf(es', Cut(active, k)) == HeldOf(es, Cut(active, k))
  {
    CutSlots(active, k, |es|);
    var l := Cut(active, k);
    forall p | 0 <= p < |l| ensures View(es', l[p]) == View(es, l[p]) {
      assert l[p] in l;
    }
    HeldFrame(es, es', l);
  }

  lemma RemoveFree(es: seq<Entry>, es': seq<Entry>, freeHead: int, free: seq<nat>, active: seq<nat>, k: nat, chain: seq<nat>, q: nat)
    requires Linked(es, FreeLink, freeHead, free) && Slots(active, |es|)
    requires k < |active| && q < |chain| && SlotRemoved(es, es', active, k, chain, q, freeHead)
    requires active[k] !in free
    ensures Linked(es', FreeLink, active[k], [active[k]] + free)
  {
    LinkedPush(es, es', FreeLink, freeHead, free, active[k]);
  }

  lemma RemoveTable(es: seq<Entry>, es': seq<Entry>, hs: seq<int>, hs': seq<int>, freeHead: int, activeHead: int,
                    free: seq<nat>, active: seq<nat>, k: nat, home: nat)
    requires Table(es, hs, freeHead, activeHead, free, active) && k < |active| && |hs'| == BUCKETS
    requires home < |hs| && InBucket(es, active[k], home)
    requires var q := BucketPos(es, active, k, home);
             var chain := Bucketed(es, active, home);
             && q < |chain| && SlotRemoved(es, es', active, k, chain, q, freeHead)
             && hs' == if q == 0 then hs[home := At(chain, 1)] else hs
    ensures Table(es', hs', active[k], if k == 0 then At(active, 1) else activeHead, [active[k]] + free, Cut(active, k))
    ensures HeldOf(es', Cut(active, k)) == HeldOf(es, Cut(active, k))
  {
    var q := BucketPos(es, active, k, home);
    var chain := Bucketed(es, active, home);
    assert active[k] in active;
    RemoveChains(es, es', hs, hs', active, k, freeHead, home);
    RemoveActive(es, es', activeHead, active, k, chain, q, freeHead);
    RemoveBack(es, es', active, k, chain, q, freeHead);
    RemoveHeld(es, es', active, k, chain, q, freeHead);
    RemoveFree(es, es', freeHead, free, active, k, chain, q);
    CutSlots(active, k, |es|);
  }

  /** Where the slot stands in the chain of its bucket. */
  lemma HomeChain(es: seq<Entry>, hs: seq<int>, active: seq<nat>, k: nat, home: nat)
    requires |hs| == BUCKETS && Chains(es, hs, active) && k < |active| && active[k] < |es|
    requires home == HashBucket(es[active[k]].leaseId)
    ensures home < |hs| && InBucket(es, active[k], home) && Linked(es, HashLink, hs[home], Bucketed(es, active, home))
    ensures var chain, q := Bucketed(es, active, home), BucketPos(es, active, k, home);
            q < |chain| && chain[q] == active[k]
  {
    CutOwnBucket(es, active, k, home);
  }

  ghost function AllSlots(n: nat): (r: seq<nat>)
    ensures |r| == n && forall k :: 0 <= k < n ==> r[k] == k
  {
    if n == 0 then [] else AllSlots(n - 1) + [n - 1]
  }

  lemma EmptyTable(es: seq<Entry>, hs: seq<int>, free: seq<nat>)
    requires |es| == MAX_LEASES && |hs| == BUCKETS
    requires |free| == MAX_LEASES && forall k :: 0 <= k < MAX_LEASES ==> free[k] == k
    requires forall k :: 0 <= k < MAX_LEASES ==> es[k].freeNext == if k + 1 < MAX_LEASES then k + 1 else -1
    requires forall b :: 0 <= b < BUCKETS ==> hs[b] == -1
    ensures Table(es, hs, 0, -1, free, [])
  {
    forall i | 0 <= i < MAX_LEASES ensures i in free {
      assert free[i] == i;
    }
    assert Distinct(free);
    assert Linked(es, FreeLink, 0, free);
    assert Chains(es, hs, []);
  }

  // ---------------------------------------------------------------------
  // The code
  // ---------------------------------------------------------------------

  class Leases {
    const leases: array<Entry>
    const hash: array<int>
    var freeHead: int
    var activeHead: int
    ghost var free: seq<nat>
    ghost var active: seq<nat>

    ghost predicate Valid()
      reads this, leases, hash
    {
      Table(leases[..], hash[..], freeHead, activeHead, free, active)
    }

    /** The leases held, newest first. */
    ghost function Held(): seq<Lease>
      reads this, leases
    {
      HeldOf(leases[..], active)
    }

    constructor ()
      ensures Valid() && Held() == [] && fresh(leases) && fresh(hash)
    {
      leases := new Entry[MAX_LEASES](_ => Entry(0, 0, 0, false, -1, -1, -1, -1));
      hash := new int[BUCKETS](_ => -1);
      new;
      Init();
    }

    method InitSlots()
      requires leases.Length == MAX_LEASES
      modifies leases
      ensures forall k :: 0 <= k < MAX_LEASES ==> leases[k].freeNext == if k + 1 < MAX_LEASES then k + 1 else -1
    {
      var i := 0;
      while i < leases.Length
        invariant 0 <= i <= leases.Length
        invariant forall k :: 0 <= k < i ==> leases[k].freeNext == if k + 1 < MAX_LEASES then k + 1 else -1
      {
        leases[i] := leases[i].(freeNext := if i + 1 < MAX_LEASES then i + 1 else -1,
                                activeNext := -1, activePrev := -1, hashNext := -1);
        i := i + 1;
      }
    }

    method InitHash()
      modifies hash
      ensures forall b :: 0 <= b < hash.Length ==> hash[b] == -1
    {
      var i := 0;
      while i < hash.Length
        invariant 0 <= i <= hash.Length
        invariant forall b :: 0 <= b < i ==> hash[b] == -1
      {
        hash[i] := -1;
        i := i + 1;
      }
    }

    /** lease_tab_init_locked */
    method Init()
      requires leases.Length == MAX_LEASES && hash.Length == BUCKETS
      modifies this, leases, hash
      ensures Valid() && Held() == []
    {
      InitSlots();
      InitHash();
      freeHead, activeHead := 0, -1;
      active := [];
      free := AllSlots(leases.Length);
      EmptyTable(leases[..], hash[..], free);
    }

    /** The walk of hash_find_locked along one chain. */
    method ChainFind(id: nat, head: int, ghost chain: seq<nat>) returns (i: int)
      requires Path(leases[..], HashLink, head, chain)
      ensures i == At(chain, First(leases[..], chain, id))
    {
      ghost var es := leases[..];
      i := head;
      ghost var q := 0;
      ghost var rest := chain;
      while i != -1
        invariant 0 <= q <= |chain| && rest == chain[q..]
        invariant i == At(chain, q)
        invariant At(chain, First(es, chain, id)) == At(rest, First(es, rest, id))
        decreases |chain| - q
      {
        assert i == chain[q] == rest[0] && 0 <= i < |es|;
        assert es[chain[q]].hashNext == At(chain, q + 1);
        if leases[i].leaseId == id { return; }
        i := leases[i].hashNext;
        q := q + 1;
        rest := rest[1..];
      }
    }

    /** hash_find_locked */
    method HashFind(id: nat) returns (i: int)
      requires Valid()
      ensures i == At(active, First(leases[..], active, id))
    {
      var b := HashBucket(id);
      assert Linked(leases[..], HashLink, hash[..][b], Bucketed(leases[..], active, b));
      FirstInBucket(leases[..], active, id);
      i := ChainFind(id, hash[b], Bucketed(leases[..], active, b));
    }

    /** hash_remove_locked: the link that leads to slot i is made to skip it. */
    method HashRemove(i: nat, ghost chain: seq<nat>, ghost q: nat)
      requires leases.Length == MAX_LEASES && hash.Length == BUCKETS && i < MAX_LEASES
      requires Linked(leases[..], HashLink, hash[HashBucket(leases[i].leaseId)], chain)
      requires q < |chain| && chain[q] == i
      modifies leases, hash
      ensures ChainCut(old(leases[..]), leases[..], chain, q)
      ensures HeadCut(old(hash[..]), hash[..], HashBucket(old(leases[i].leaseId)), chain, q)
    {
      ghost var es := leases[..];
      var b := HashBucket(leases[i].leaseId);
      OthersDiffer(chain, q);
      var prev, cur := -1, hash[b];
      ghost var p := 0;
      while cur != -1 && cur != i
        invariant 0 <= p <= q
        invariant cur == At(chain, p) && prev == At(chain, p - 1)
        invariant leases[..] == es && hash[..] == old(hash[..])
        decreases q - p
      {
        assert cur == chain[p] && es[cur].hashNext == At(chain, p + 1);
        prev, cur := cur, leases[cur].hashNext;
        p := p + 1;
      }
      assert cur == i && p == q;
      assert es[i].hashNext == At(chain, q + 1);
      if prev == -1 {
        hash[b] := leases[i].hashNext;
      } else {
        leases[prev] := leases[prev].(hashNext := leases[i].hashNext);
      }
    }

    /** active_unlink_locked */
    method ActiveUnlink(i: nat, ghost k: nat)
      requires leases.Length == MAX_LEASES && k < |active| && active[k] == i
      requires Linked(leases[..], ActiveLink, activeHead, active) && BackLinked(leases[..], active)
      modifies leases, this`activeHead
      ensures activeHead == if k == 0 then At(active, 1) else old(activeHead)
      ensures ActiveCut(old(leases[..]), leases[..], active, k)
      ensures leases[i] == old(leases[i]).(activeNext := -1, activePrev := -1)
    {
      ghost var es := leases[..];
      assert es[active[k]].activeNext == At(active, k + 1) && es[active[k]].activePrev == At(active, k - 1);
      OthersDiffer(active, k);
      if 0 < k && k + 1 < |active| { Differ(active, k - 1, k + 1); }
      var prev, next := leases[i].activePrev, leases[i].activeNext;
      assert prev != i && next != i && (prev != -1 ==> prev != next);
      if prev != -1 {
        leases[prev] := leases[prev].(activeNext := next);
      } else {
        activeHead := next;
      }
      if next != -1 {
        leases[next] := leases[next].(activePrev := prev);
      }
      leases[i] := leases[i].(activeNext := -1, activePrev := -1);
    }

    method Add(id: nat, shard: nat, job: nat)
      requires Valid()
      modifies this, leases, hash
      ensures Valid()
      ensures Held() == Added(old(Held()), Lease(id, shard, job, false))
    {
      ghost var es, hs := leases[..], hash[..];
      var i := freeHead;
      if i == -1 { return; }
      assert i == free[0];
      freeHead := leases[i].freeNext;
      leases[i] := leases[i].(leaseId := id, shardId := shard, jobId := job, running := false);
      // hash_insert_locked
      var b := HashBucket(id);
      leases[i] := leases[i].(hashNext := hash[b]);
      hash[b] := i;
      // active_link_locked
      leases[i] := leases[i].(activePrev := -1, activeNext := activeHead);
      if activeHead != -1 {
        assert activeHead == active[0] && active[0] in active;
        leases[activeHead] := leases[activeHead].(activePrev := i);
      }
      AddTable(es, leases[..], hs, old(freeHead), activeHead, free, active, Lease(id, shard, job, false));
      activeHead := i;
      active := [free[0]] + active;
      free := free[1..];
    }

    /** The unlinking half of lease_remove. */
    method Unlink(i: nat, ghost k: nat, ghost chain: seq<nat>, ghost q: nat)
      requires leases.Length == MAX_LEASES && hash.Length == BUCKETS && i < MAX_LEASES
      requires k < |active| && active[k] == i && q < |chain| && chain[q] == i
      requires Linked(leases[..], ActiveLink, activeHead, active) && BackLinked(leases[..], active)
      requires Linked(leases[..], HashLink, hash[HashBucket(leases[i].leaseId)], chain)
      modifies leases, hash, this`activeHead
      ensures activeHead == if k == 0 then At(active, 1) else old(activeHead)
      ensures SlotUnlinked(old(leases[..]), leases[..], active, k, chain, q)
      ensures HeadCut(old(hash[..]), hash[..], HashBucket(old(leases[i].leaseId)), chain, q)
    {
      ghost var es := leases[..];
      HashRemove(i, chain, q);
      ghost var es1 := leases[..];
      ChainCutKeepsActive(es, es1, activeHead, active, chain, q);
      ActiveUnlink(i, k);
      BothUnlinked(es, es1, leases[..], active, k, chain, q);
    }

    /** The slot leaves its lists and is made ready for the free list. */
    method TakeOut(i: nat, ghost k: nat, ghost home: nat, ghost chain: seq<nat>, ghost q: nat)
      requires leases.Length == MAX_LEASES && hash.Length == BUCKETS && i < MAX_LEASES
      requires Slots(active, MAX_LEASES) && home == HashBucket(leases[i].leaseId)
      requires k < |active| && active[k] == i && q < |chain| && chain[q] == i
      requires Linked(leases[..], ActiveLink, activeHead, active) && BackLinked(leases[..], active)
      requires Linked(leases[..], HashLink, hash[home], chain)
      modifies leases, hash, this`activeHead
      ensures activeHead == if k == 0 then At(active, 1) else old(activeHead)
      ensures SlotRemoved(old(leases[..]), leases[..], active, k, chain, q, freeHead)
      ensures HeadCut(old(hash[..]), hash[..], home, chain, q)
    {
      ghost var es := leases[..];
      Unlink(i, k, chain, q);
      ghost var es1 := leases[..];
      ResetSlot(i);
      SlotReset(es, es1, leases[..], active, k, chain, q, freeHead);
    }

    method Detach(i: nat, ghost k: nat)
      requires Valid() && k < |active| && active[k] == i
      modifies leases, hash, this`activeHead
      ensures Table(leases[..], hash[..], i, activeHead, [i] + free, Cut(active, k))
      ensures HeldOf(leases[..], Cut(active, k)) == HeldOf(old(leases[..]), Cut(active, k))
    {
      ghost var es, hs, ah := leases[..], hash[..], activeHead;
      ghost var home := HashBucket(leases[i].leaseId);
      ghost var chain, q := Bucketed(es, active, home), BucketPos(es, active, k, home);
      HomeChain(es, hs, active, k, home);
      TakeOut(i, k, home, chain, q);
      RemoveTable(es, leases[..], hs, hash[..], freeHead, ah, free, active, k, home);
    }

    method Release(i: nat, ghost k: nat)
      requires Valid() && k < |active| && active[k] == i
      modifies this, leases, hash
      ensures Valid() && Held() == HeldOf(old(leases[..]), Cut(old(active), k))
    {
      Detach(i, k);
      freeHead := i;
      free := [i] + free;
      active := Cut(active, k);
    }

    method ResetSlot(i: nat)
      requires i < leases.Length
      modifies leases
      ensures leases[..] == old(leases[..])[i := old(leases[i]).(leaseId := 0, freeNext := freeHead)]
    {
      leases[i] := leases[i].(leaseId := 0, freeNext := freeHead);
    }

    method Remove(id: nat)
      requires Valid()
      modifies this, leases, hash
      ensures Valid()
      ensures Held() == Removed(old(Held()), id)
    {
      HeldCut(leases[..], active, id);
      var i := HashFind(id);
      if i != -1 {
        Release(i, First(leases[..], active, id));
      }
    }

    method Start(id: nat)
      requires Valid()
      modifies leases
      ensures Valid()
      ensures Held() == Started(old(Held()), id)
    {
      ghost var es := leases[..];
      var i := HashFind(id);
      if i != -1 {
        leases[i] := leases[i].(running := true);
      }
      StartTable(es, leases[..]);
      MarkedOne(es, leases[..], active, id, i);
      HeldStart(es, leases[..], active, id);
    }

    ghost predicate SameLinks(es: seq<Entry>, es': seq<Entry>) {
      |es'| == |es| && forall x :: 0 <= x < |es| ==> es'[x] == es[x].(running := es'[x].running)
    }

    lemma StartTable(es: seq<Entry>, es': seq<Entry>)
      requires Table(es, hash[..], freeHead, activeHead, free, active) && SameLinks(es, es')
      ensures Table(es', hash[..], freeHead, activeHead, free, active)
    {
      LinkedFrame(es, es', FreeLink, freeHead, free);
      LinkedFrame(es, es', ActiveLink, activeHead, active);
      forall b | 0 <= b < |hash[..]| ensures Linked(es', HashLink, hash[..][b], Bucketed(es', active, b)) {
        BucketedFrame(es, es', active, b);
        LinkedFrame(es, es', HashLink, hash[..][b], Bucketed(es, active, b));
      }
    }

    method JobHeld(job: nat) returns (held: bool)
      requires Valid()
      ensures held <==> exists k :: 0 <= k < |Held()| && Held()[k].jobId == job
    {
      held := JobScan(job);
      if held {
        ghost var k :| 0 <= k < |active| && View(leases[..], active[k]).jobId == job;
        assert Held()[k].jobId == job;
      }
    }

    /** The walk of lease_job_held along the active list. */
    method JobScan(job: nat) returns (held: bool)
      requires Path(leases[..], ActiveLink, activeHead, active)
      ensures held <==> exists k :: 0 <= k < |active| && View(leases[..], active[k]).jobId == job
    {
      ghost var es := leases[..];
      held := false;
      var i := activeHead;
      ghost var k := 0;
      while i != -1
        invariant 0 <= k <= |active| && i == At(active, k)
        invariant forall q :: 0 <= q < k ==> View(es, active[q]).jobId != job
        decreases |active| - k
      {
        assert i == active[k] && es[active[k]].activeNext == At(active, k + 1);
        if leases[i].jobId == job { return true; }
        i := leases[i].activeNext;
        k := k + 1;
      }
    }

    /** lease_snapshot: the first cap leases, so all of them for cap MAX_LEASES. */
    method Snapshot(cap: nat) returns (dst: seq<nat>)
      requires Valid()
      ensures |dst| == if cap < |Held()| then cap else |Held()|
      ensures forall k :: 0 <= k < |dst| ==> dst[k] == Held()[k].leaseId
      ensures cap >= MAX_LEASES ==> |dst| == |Held()|
    {
      ghost var es := leases[..];
      dst := [];
      var i := activeHead;
      while i != -1 && |dst| < cap
        invariant |dst| <= |active| && |dst| <= cap && i == At(active, |dst|)
        invariant forall k :: 0 <= k < |dst| ==> dst[k] == View(es, active[k]).leaseId
        decreases |active| - |dst|
      {
        assert i == active[|dst|] && es[active[|dst|]].activeNext == At(active, |dst| + 1);
        dst := dst + [leases[i].leaseId];
        i := leases[i].activeNext;
      }
    }
  }
}
