/** Intrusive lists threaded through one table of slots: what it means for a
    head and a link field to spell out a list, and how the list changes when
    links do (agent/src/state.c lease table). */
module LeaseLists {

  datatype Entry = Entry(
    leaseId: nat, shardId: nat, jobId: nat, running: bool,
    freeNext: int, activeNext: int, activePrev: int, hashNext: int
  )

  datatype Link = FreeLink | ActiveLink | HashLink

  function Next(e: Entry, f: Link): int {
    match f
    case FreeLink => e.freeNext
    case ActiveLink => e.activeNext
    case HashLink => e.hashNext
  }

  function At(list: seq<nat>, k: int): int {
    if 0 <= k < |list| then list[k] else -1
  }

  ghost predicate Within(list: seq<nat>, n: nat) {
    forall k :: 0 <= k < |list| ==> list[k] < n
  }

  predicate Apart(list: seq<nat>, j: int, k: int) {
    0 <= j < k < |list| ==> list[j] != list[k]
  }

  /** No slot twice. The pairs are named, so that they are looked at one by one. */
  ghost predicate Distinct(list: seq<nat>) {
    forall j, k {:trigger Apart(list, j, k)} :: 0 <= j < k < |list| ==> Apart(list, j, k)
  }

  ghost predicate Slots(list: seq<nat>, n: nat) {
    Within(list, n) && Distinct(list)
  }

  lemma Differ(list: seq<nat>, j: nat, k: nat)
    requires Distinct(list) && j < |list| && k < |list| && j != k
    ensures list[j] != list[k]
  {
    if j < k { assert Apart(list, j, k); } else { assert Apart(list, k, j); }
  }

  /** Which positions hold another slot than position p. */
  lemma OthersDiffer(list: seq<nat>, p: nat)
    requires Distinct(list) && p < |list|
    ensures forall k :: 0 <= k < |list| && k != p ==> list[k] != list[p]
  {
    forall k | 0 <= k < |list| && k != p ensures list[k] != list[p] {
      Differ(list, k, p);
    }
  }

  lemma DistinctPush(list: seq<nat>, i: nat)
    requires Distinct(list) && i !in list
    ensures Distinct([i] + list)
  {
    var l := [i] + list;
    forall j, k | 0 <= j < k < |l| ensures Apart(l, j, k) {
      assert l[k] == list[k - 1];
      if j > 0 { Differ(list, j - 1, k - 1); }
    }
  }

  lemma DistinctPop(list: seq<nat>)
    requires Distinct(list) && list != []
    ensures Distinct(list[1..]) && list[0] !in list[1..]
  {
    var l := list[1..];
    forall j, k | 0 <= j < k < |l| ensures Apart(l, j, k) {
      Differ(list, j + 1, k + 1);
    }
    OthersDiffer(list, 0);
  }

  /** Following f from head visits exactly `list`, then ends. */
  ghost predicate Path(es: seq<Entry>, f: Link, head: int, list: seq<nat>) {
    && head == At(list, 0)
    && (forall k :: 0 <= k < |list| ==> list[k] < |es| && Next(es[list[k]], f) == At(list, k + 1))
  }

  ghost predicate Linked(es: seq<Entry>, f: Link, head: int, list: seq<nat>) {
    Slots(list, |es|) && Path(es, f, head, list)
  }

  ghost predicate BackLinked(es: seq<Entry>, list: seq<nat>) {
    && Slots(list, |es|)
    && (forall k :: 0 <= k < |list| ==> es[list[k]].activePrev == At(list, k - 1))
  }

  lemma LinkedFrame(es: seq<Entry>, es': seq<Entry>, f: Link, head: int, list: seq<nat>)
    requires Linked(es, f, head, list) && |es'| == |es|
    requires forall k :: 0 <= k < |list| ==> Next(es'[list[k]], f) == Next(es[list[k]], f)
    ensures Linked(es', f, head, list)
  {
  }

  lemma LinkedPush(es: seq<Entry>, es': seq<Entry>, f: Link, head: int, list: seq<nat>, i: nat)
    requires Linked(es, f, head, list) && |es'| == |es| && i < |es| && i !in list
    requires Next(es'[i], f) == head
    requires forall k :: 0 <= k < |list| ==> Next(es'[list[k]], f) == Next(es[list[k]], f)
    ensures Linked(es', f, i, [i] + list)
  {
    DistinctPush(list, i);
    var l := [i] + list;
    forall k | 0 <= k < |l| ensures l[k] < |es| && Next(es'[l[k]], f) == At(l, k + 1) {
      PushedAt(list, i, k);
      PushedAt(list, i, k + 1);
      if k > 0 { assert Next(es[list[k - 1]], f) == At(list, k); }
    }
  }

  lemma PushedAt(list: seq<nat>, i: nat, k: nat)
    ensures At([i] + list, k) == if k == 0 then i else At(list, k - 1)
  {
  }

  lemma LinkedPop(es: seq<Entry>, f: Link, head: int, list: seq<nat>)
    requires Linked(es, f, head, list) && list != []
    ensures Linked(es, f, Next(es[list[0]], f), list[1..])
  {
    DistinctPop(list);
    var l := list[1..];
    forall k | 0 <= k < |l| ensures l[k] < |es| && Next(es[l[k]], f) == At(l, k + 1) {
      assert l[k] == list[k + 1];
    }
  }

  /** Position k of the list without slot p, in the list itself. */
  function Skip(p: nat, k: int): int {
    if k < p then k else k + 1
  }

  /** The list without slot p. */
  function Cut(list: seq<nat>, p: nat): seq<nat>
    requires p < |list|
  {
    seq(|list| - 1, k requires 0 <= k < |list| - 1 => list[Skip(p, k)])
  }

  lemma CutSlots(list: seq<nat>, p: nat, n: nat)
    requires Slots(list, n) && p < |list|
    ensures Slots(Cut(list, p), n)
    ensures forall i :: i in Cut(list, p) <==> i in list && i != list[p]
  {
    var l := Cut(list, p);
    forall j, k | 0 <= j < k < |l| ensures Apart(l, j, k) {
      Differ(list, Skip(p, j), Skip(p, k));
    }
    OthersDiffer(list, p);
    forall i | i in list && i != list[p] ensures i in l {
      var k :| 0 <= k < |list| && list[k] == i;
      assert l[if k < p then k else k - 1] == i;
    }
  }

  /** The neighbours of position k after the cut. */
  lemma CutNeighbours(list: seq<nat>, p: nat, k: nat)
    requires p < |list| && k < |list| - 1
    ensures var q := Skip(p, k);
            && 0 <= q < |list| && q != p && Cut(list, p)[k] == list[q]
            && At(Cut(list, p), k + 1) == (if q == p - 1 then At(list, p + 1) else At(list, q + 1))
            && At(Cut(list, p), k - 1) == (if q == p + 1 then At(list, p - 1) else At(list, q - 1))
  {
  }

  lemma CutHead(list: seq<nat>, p: nat)
    requires p < |list|
    ensures At(Cut(list, p), 0) == if p == 0 then At(list, 1) else At(list, 0)
  {
  }

  /** Unlinking position p: the predecessor's link (or the head) takes over the
      removed slot's link. */
  lemma LinkedCut(es: seq<Entry>, es': seq<Entry>, f: Link, head: int, head': int, list: seq<nat>, p: nat)
    requires Linked(es, f, head, list) && p < |list| && |es'| == |es|
    requires head' == if p == 0 then At(list, 1) else head
    requires forall k :: 0 <= k < |list| && k != p ==>
               Next(es'[list[k]], f) == if k == p - 1 then At(list, p + 1) else Next(es[list[k]], f)
    ensures Linked(es', f, head', Cut(list, p))
  {
    CutSlots(list, p, |es|);
    CutHead(list, p);
    PathCut(es, es', f, head, head', list, p);
  }

  lemma PathCut(es: seq<Entry>, es': seq<Entry>, f: Link, head: int, head': int, list: seq<nat>, p: nat)
    requires Path(es, f, head, list) && p < |list| && |es'| == |es|
    requires head' == At(Cut(list, p), 0)
    requires forall k :: 0 <= k < |list| && k != p ==>
               Next(es'[list[k]], f) == if k == p - 1 then At(list, p + 1) else Next(es[list[k]], f)
    ensures Path(es', f, head', Cut(list, p))
  {
    var l := Cut(list, p);
    forall k | 0 <= k < |l| ensures l[k] < |es'| && Next(es'[l[k]], f) == At(l, k + 1) {
      CutNeighbours(list, p, k);
      var q := Skip(p, k);
      assert Next(es[list[q]], f) == At(list, q + 1);
    }
  }

  lemma BackLinkedPush(es: seq<Entry>, es': seq<Entry>, list: seq<nat>, i: nat)
    requires BackLinked(es, list) && |es'| == |es| && i < |es| && i !in list
    requires es'[i].activePrev == -1
    requires forall k :: 0 <= k < |list| ==> es'[list[k]].activePrev == if k == 0 then i else es[list[k]].activePrev
    ensures BackLinked(es', [i] + list)
  {
    DistinctPush(list, i);
    var l := [i] + list;
    forall k | 0 <= k < |l| ensures l[k] < |es| && es'[l[k]].activePrev == At(l, k - 1) {
      if k > 0 { assert l[k] == list[k - 1]; }
      if k > 1 { assert l[k - 1] == list[k - 2]; }
    }
  }

  lemma BackLinkedCut(es: seq<Entry>, es': seq<Entry>, list: seq<nat>, p: nat)
    requires BackLinked(es, list) && p < |list| && |es'| == |es|
    requires forall k :: 0 <= k < |list| && k != p ==>
               es'[list[k]].activePrev == if k == p + 1 then At(list, p - 1) else es[list[k]].activePrev
    ensures BackLinked(es', Cut(list, p))
  {
    CutSlots(list, p, |es|);
    var l := Cut(list, p);
    forall k | 0 <= k < |l| ensures es'[l[k]].activePrev == At(l, k - 1) {
      CutNeighbours(list, p, k);
      var q := Skip(p, k);
      assert es[list[q]].activePrev == At(list, q - 1);
    }
  }

  // ---------------------------------------------------------------------
  // Buckets
  // ---------------------------------------------------------------------

  const BUCKETS: nat := 16384

  function HashBucket(id: nat): (b: nat)
    ensures b < BUCKETS
  {
    id * 0x9E3779B97F4A7C15 % 0x1_0000_0000_0000_0000 / 0x1_0000_0000_0000 % BUCKETS
  }

  predicate InBucket(es: seq<Entry>, i: nat, b: nat) {
    i < |es| && HashBucket(es[i].leaseId) == b
  }

  predicate Holds(es: seq<Entry>, i: nat, id: nat) {
    i < |es| && es[i].leaseId == id
  }

  /** The slots of `list` whose lease hashes to b, in order. */
  function Bucketed(es: seq<Entry>, list: seq<nat>, b: nat): (r: seq<nat>)
    ensures forall i :: i in r <==> i in list && InBucket(es, i, b)
  {
    if list == [] then []
    else if InBucket(es, list[0], b) then [list[0]] + Bucketed(es, list[1..], b)
    else Bucketed(es, list[1..], b)
  }

  lemma {:induction false} BucketedFrame(es: seq<Entry>, es': seq<Entry>, list: seq<nat>, b: nat)
    requires |es'| == |es|
    requires forall i :: i in list && i < |es| ==> es'[i].leaseId == es[i].leaseId
    ensures Bucketed(es', list, b) == Bucketed(es, list, b)
  {
    if list != [] { BucketedFrame(es, es', list[1..], b); }
  }

  lemma CutTail(list: seq<nat>, p: nat)
    requires 0 < p < |list|
    ensures Cut(list, p)[0] == list[0] && Cut(list, p)[1..] == Cut(list[1..], p - 1)
  {
  }

  /** Cutting a slot out of the list leaves the other buckets alone ... */
  lemma {:induction false} CutOtherBucket(es: seq<Entry>, list: seq<nat>, p: nat, b: nat)
    requires p < |list| && !InBucket(es, list[p], b)
    ensures Bucketed(es, Cut(list, p), b) == Bucketed(es, list, b)
  {
    if p == 0 {
      assert Cut(list, 0) == list[1..];
    } else {
      CutTail(list, p);
      CutOtherBucket(es, list[1..], p - 1, b);
    }
  }

  /** Where list[p] stands in its bucket. */
  function BucketPos(es: seq<Entry>, list: seq<nat>, p: nat, b: nat): nat
    requires p < |list|
  {
    if p == 0 then 0
    else (if InBucket(es, list[0], b) then 1 else 0) + BucketPos(es, list[1..], p - 1, b)
  }

  lemma CutCons(x: nat, part: seq<nat>, q: nat)
    requires q < |part|
    ensures Cut([x] + part, q + 1) == [x] + Cut(part, q) && ([x] + part)[q + 1] == part[q]
  {
  }

  /** ... and cuts it out of its own. */
  lemma {:induction false} CutOwnBucket(es: seq<Entry>, list: seq<nat>, p: nat, b: nat)
    requires p < |list| && InBucket(es, list[p], b)
    ensures var chain := Bucketed(es, list, b);
            var q := BucketPos(es, list, p, b);
            q < |chain| && chain[q] == list[p] && Bucketed(es, Cut(list, p), b) == Cut(chain, q)
  {
    var tail := list[1..];
    var part := Bucketed(es, tail, b);
    if p == 0 {
      assert Cut(list, 0) == tail;
      assert Cut([list[0]] + part, 0) == part;
    } else {
      CutTail(list, p);
      CutOwnBucket(es, tail, p - 1, b);
      var q := BucketPos(es, tail, p - 1, b);
      CutCons(list[0], part, q);
    }
  }

  /** Position of the first (newest) slot holding the lease, or the length. */
  function First(es: seq<Entry>, list: seq<nat>, id: nat): (k: nat)
    ensures k <= |list| && (k < |list| ==> Holds(es, list[k], id))
    ensures forall q :: 0 <= q < k ==> !Holds(es, list[q], id)
  {
    if list == [] then 0
    else if Holds(es, list[0], id) then 0
    else 1 + First(es, list[1..], id)
  }

  /** The newest slot of a lease heads the matches of its bucket too. */
  lemma {:induction false} FirstInBucket(es: seq<Entry>, list: seq<nat>, id: nat)
    ensures var chain := Bucketed(es, list, HashBucket(id));
            At(chain, First(es, chain, id)) == At(list, First(es, list, id))
  {
    if list != [] {
      var b := HashBucket(id);
      FirstInBucket(es, list[1..], id);
      var part := Bucketed(es, list[1..], b);
      if InBucket(es, list[0], b) {
        assert ([list[0]] + part)[1..] == part;
      }
    }
  }
}
