/** When the finalize of a chunked file is due (coordinator/internal/store/store.go
    CompleteDataChunk, RecordSplit): the group's counter goes up with each data
    task that completes, and the finalize is seeded when it reaches the number of
    ranges. The counter does not know which range a task was for, and a walk shard
    that re-runs may fan the same file out again under the group it already has. */
module ChunkFanout {
  import SetSize

  /** tasks[i]: the range of task i. Every range has at least one. */
  ghost predicate FanOut(tasks: seq<nat>, n: nat) {
    && (forall i :: 0 <= i < |tasks| ==> tasks[i] < n)
    && (forall r :: 0 <= r < n ==> r in tasks)
  }

  ghost predicate Distinct(s: seq<nat>) {
    forall i, j :: 0 <= i < j < |s| ==> s[i] != s[j]
  }

  /** The tasks whose results arrived before the finalize was seeded: as many as
      there are ranges, each once. */
  ghost predicate Counted(order: seq<nat>, tasks: seq<nat>, n: nat) {
    |order| == n && Distinct(order) && forall k :: 0 <= k < n ==> order[k] < |tasks|
  }

  ghost predicate Covers(order: seq<nat>, tasks: seq<nat>, n: nat) {
    forall r :: 0 <= r < n ==> Hits(order, tasks, r)
  }

  /** Some task that completed was for range r. */
  ghost predicate Hits(order: seq<nat>, tasks: seq<nat>, r: int) {
    exists k :: 0 <= k < |order| && order[k] < |tasks| && tasks[order[k]] == r
  }

  // ---------------------------------------------------------------------
  // One task per range
  // ---------------------------------------------------------------------

  ghost function Below(n: nat): (s: set<nat>)
    ensures |s| == n && forall x: nat :: x in s <==> x < n
  {
    if n == 0 then {} else Below(n - 1) + {n - 1}
  }

  ghost function Values(s: seq<nat>): (r: set<nat>)
    ensures forall x :: x in r <==> x in s
  {
    if s == [] then {} else Values(s[1..]) + {s[0]}
  }

  lemma {:induction false} ValuesCount(s: seq<nat>)
    requires Distinct(s)
    ensures |Values(s)| == |s|
  {
    if s != [] {
      var t := s[1..];
      assert forall i :: 0 <= i < |t| ==> t[i] == s[i + 1];
      ValuesCount(t);
      assert s[0] !in t;
    }
  }

  lemma {:induction false} SameSize(a: set<nat>, b: set<nat>)
    requires a <= b && |a| == |b|
    ensures a == b
  {
    if b != {} {
      var x :| x in b;
      if x in a {
        SameSize(a - {x}, b - {x});
      } else {
        SetSize.LackingOne(a, b, x);
      }
    }
  }

  /** n distinct numbers below n are all of them. */
  lemma Pigeonhole(s: seq<nat>, n: nat)
    requires |s| == n && Distinct(s) && forall k :: 0 <= k < n ==> s[k] < n
    ensures forall r :: 0 <= r < n ==> r in s
  {
    ValuesCount(s);
    SameSize(Values(s), Below(n));
  }

  function Ranges(order: seq<nat>, tasks: seq<nat>): (s: seq<nat>)
    requires forall k :: 0 <= k < |order| ==> order[k] < |tasks|
    ensures |s| == |order| && forall k :: 0 <= k < |s| ==> s[k] == tasks[order[k]]
  {
    seq(|order|, k requires 0 <= k < |order| => tasks[order[k]])
  }

  lemma OneEachCovers(order: seq<nat>, tasks: seq<nat>, n: nat)
    requires FanOut(tasks, n) && Distinct(tasks) && Counted(order, tasks, n)
    ensures Covers(order, tasks, n)
  {
    var s := Ranges(order, tasks);
    forall i, j | 0 <= i < j < |s| ensures s[i] != s[j] {
      var a, b := order[i], order[j];
      assert a != b;
      assert if a < b then tasks[a] != tasks[b] else tasks[b] != tasks[a];
    }
    Pigeonhole(s, n);
    forall r | 0 <= r < n ensures Hits(order, tasks, r) {
      assert r in s;
      var k :| 0 <= k < |s| && s[k] == r;
    }
  }

  // ---------------------------------------------------------------------
  // A range with two tasks
  // ---------------------------------------------------------------------

  function First(tasks: seq<nat>, r: nat): (i: nat)
    requires r in tasks
    ensures i < |tasks| && tasks[i] == r
  {
    if tasks[0] == r then 0 else 1 + First(tasks[1..], r)
  }

  /** One task for each range below m, except one range. */
  ghost function Picks(tasks: seq<nat>, m: nat, but: nat): (s: seq<nat>)
    requires forall r :: 0 <= r < m ==> r in tasks
    ensures |s| == if but < m then m - 1 else m
    ensures forall k :: 0 <= k < |s| ==>
              s[k] < |tasks| && tasks[s[k]] < m && tasks[s[k]] != but && s[k] == First(tasks, tasks[s[k]])
    ensures forall i, j :: 0 <= i < j < |s| ==> tasks[s[i]] < tasks[s[j]]
  {
    if m == 0 then []
    else
      var rest := Picks(tasks, m - 1, but);
      if m - 1 == but then rest else rest + [First(tasks, m - 1)]
  }

  /** If a range has two tasks and there is another range, the counter can reach
      its goal with that other range untouched. */
  lemma TwiceMisses(tasks: seq<nat>, n: nat, i: nat, j: nat) returns (order: seq<nat>)
    requires FanOut(tasks, n) && n > 1 && i < j < |tasks| && tasks[i] == tasks[j]
    ensures Counted(order, tasks, n) && !Covers(order, tasks, n)
  {
    var r := tasks[i];
    var but := if r == 0 then 1 else 0;
    var twin := if First(tasks, r) == i then j else i;
    var picks := Picks(tasks, n, but);
    order := picks + [twin];
    forall a, b | 0 <= a < b < |order| ensures order[a] != order[b] {
      if b < |picks| {
        assert tasks[picks[a]] < tasks[picks[b]];
      } else {
        assert picks[a] == First(tasks, tasks[picks[a]]);
      }
    }
    forall k | 0 <= k < |order| ensures order[k] < |tasks| && tasks[order[k]] != but {
    }
    assert forall k :: 0 <= k < |order| && order[k] < |tasks| ==> tasks[order[k]] != but;
    assert 0 <= but < n && !Hits(order, tasks, but);
  }

  /** The finalize always finds every range done if and only if the file has one
      range only, or no range was fanned out twice. */
  lemma FinalizeIsDueIff(tasks: seq<nat>, n: nat)
    requires FanOut(tasks, n)
    ensures (forall order :: Counted(order, tasks, n) ==> Covers(order, tasks, n)) <==> n <= 1 || Distinct(tasks)
  {
    if n <= 1 {
      forall order | Counted(order, tasks, n) ensures Covers(order, tasks, n) {
        if n == 1 { assert tasks[order[0]] == 0; assert Hits(order, tasks, 0); }
      }
    } else if Distinct(tasks) {
      forall order | Counted(order, tasks, n) ensures Covers(order, tasks, n) {
        OneEachCovers(order, tasks, n);
      }
    } else {
      var i, j :| 0 <= i < j < |tasks| && tasks[i] == tasks[j];
      var order := TwiceMisses(tasks, n, i, j);
    }
  }
}
