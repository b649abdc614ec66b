/** How one directory's two listings are paired (agent/src/walker.c walk_dir's
    sorted merge, prefetch_stats, dst_find, split_entrylist_stream). */
module DirStream {
  import opened NameOrder

  ghost predicate Ordered(v: seq<string>) {
    forall i, j :: 0 <= i < j < |v| ==> Before(v[i], v[j])
  }

  lemma OrderedPair(a: string, b: string)
    ensures Ordered([]) && Ordered([a]) && (Ordered([a, b]) <==> Before(a, b))
  {
    if Ordered([a, b]) { assert Before([a, b][0], [a, b][1]); }
  }

  /** The destination-only names, in the destination's order. */
  function Missing(dv: seq<string>, names: seq<string>): seq<string> {
    if dv == [] then []
    else if dv[0] in names then Missing(dv[1..], names)
    else [dv[0]] + Missing(dv[1..], names)
  }

  /** Listings that hold the same names miss the same names. */
  lemma {:induction false} MissingSameNames(dv: seq<string>, a: seq<string>, b: seq<string>)
    requires forall x :: x in a <==> x in b
    ensures Missing(dv, a) == Missing(dv, b)
  {
    if dv != [] { MissingSameNames(dv[1..], a, b); }
  }

  lemma {:induction false} MissingStep(dv: seq<string>, j: nat, names: seq<string>)
    requires j < |dv|
    ensures Missing(dv[..j + 1], names) == Missing(dv[..j], names) + if dv[j] in names then [] else [dv[j]]
  {
    if j > 0 {
      MissingStep(dv[1..], j - 1, names);
      assert dv[..j + 1][1..] == dv[1..][..j] && dv[..j][1..] == dv[1..][..j - 1];
    } else {
      assert dv[..1][1..] == [] && dv[..0] == [];
    }
  }

  // ---------------------------------------------------------------------
  // The sorted merge
  // ---------------------------------------------------------------------

  datatype Option<+A> = None | Some(value: A)

  /** handle_entry with its destination match, if any; the orphans apart. */
  datatype Paired = Paired(name: string, match_: Option<nat>)

  ghost predicate RightMatch(p: Paired, dv: seq<string>) {
    match p.match_
    case Some(j) => j < |dv| && dv[j] == p.name
    case None => p.name !in dv
  }

  /** No name left of a cursor reaches the other listing right of its cursor. */
  ghost predicate Passed(sv: seq<string>, dv: seq<string>, i: nat, j: nat)
    requires i <= |sv| && j <= |dv|
  {
    && (forall a, b :: 0 <= a < i && j <= b < |dv| ==> Before(sv[a], dv[b]))
    && (forall a, b :: i <= a < |sv| && 0 <= b < j ==> Before(dv[b], sv[a]))
  }

  lemma SourceOnly(sv: seq<string>, dv: seq<string>, i: nat, j: nat)
    requires Ordered(sv) && Ordered(dv) && i < |sv| && j <= |dv| && Passed(sv, dv, i, j)
    requires j < |dv| ==> Before(sv[i], dv[j])
    ensures Passed(sv, dv, i + 1, j) && sv[i] !in dv
  {
    forall b | j <= b < |dv| ensures Before(sv[i], dv[b]) {
      if j < b { BeforeTransitive(sv[i], dv[j], dv[b]); }
    }
    forall b | 0 <= b < |dv| ensures dv[b] != sv[i] {
      BeforeIrreflexive(sv[i]);
    }
  }

  lemma DestOnly(sv: seq<string>, dv: seq<string>, i: nat, j: nat)
    requires Ordered(sv) && Ordered(dv) && i <= |sv| && j < |dv| && Passed(sv, dv, i, j)
    requires i < |sv| ==> Before(dv[j], sv[i])
    ensures Passed(sv, dv, i, j + 1) && dv[j] !in sv
  {
    forall a | i <= a < |sv| ensures Before(dv[j], sv[a]) {
      if i < a { BeforeTransitive(dv[j], sv[i], sv[a]); }
    }
    forall a | 0 <= a < |sv| ensures sv[a] != dv[j] {
      BeforeIrreflexive(dv[j]);
    }
  }

  lemma BothSides(sv: seq<string>, dv: seq<string>, i: nat, j: nat)
    requires Ordered(sv) && Ordered(dv) && i < |sv| && j < |dv| && Passed(sv, dv, i, j) && sv[i] == dv[j]
    ensures Passed(sv, dv, i + 1, j + 1)
  {
  }

  /** walk_dir's loop: every source entry is handled once, in order, with its own
      destination entry; the orphans are the destination-only names. */
  method Merge(sv: seq<string>, dv: seq<string>) returns (handled: seq<Paired>, orphans: seq<string>)
    requires Ordered(sv) && Ordered(dv)
    ensures |handled| == |sv|
    ensures forall k :: 0 <= k < |sv| ==> handled[k].name == sv[k] && RightMatch(handled[k], dv)
    ensures orphans == Missing(dv, sv)
  {
    handled, orphans := [], [];
    var i, j := 0, 0;
    while i < |sv| || j < |dv|
      invariant 0 <= i <= |sv| && 0 <= j <= |dv| && Passed(sv, dv, i, j)
      invariant |handled| == i
      invariant forall k :: 0 <= k < i ==> handled[k].name == sv[k] && RightMatch(handled[k], dv)
      invariant orphans == Missing(dv[..j], sv)
      decreases |sv| - i + |dv| - j
    {
      if j == |dv| || (i < |sv| && Before(sv[i], dv[j])) {
        SourceOnly(sv, dv, i, j);
        handled := handled + [Paired(sv[i], None)];
        i := i + 1;
      } else if i == |sv| || Before(dv[j], sv[i]) {
        DestOnly(sv, dv, i, j);
        MissingStep(dv, j, sv);
        orphans := orphans + [dv[j]];
        j := j + 1;
      } else {
        BeforeTotal(sv[i], dv[j]);
        BothSides(sv, dv, i, j);
        MissingStep(dv, j, sv);
        handled := handled + [Paired(sv[i], Some(j))];
        i, j := i + 1, j + 1;
      }
    }
    assert dv[..j] == dv;
  }

  // ---------------------------------------------------------------------
  // The streamed directory
  // ---------------------------------------------------------------------

  /** dst_find. */
  method DstFind(dv: seq<string>, name: string) returns (at: int)
    requires Ordered(dv)
    ensures -1 <= at < |dv|
    ensures at >= 0 ==> dv[at] == name
    ensures at < 0 ==> name !in dv
  {
    var lo, hi := 0, |dv|;
    while lo < hi
      invariant 0 <= lo <= hi <= |dv|
      invariant forall k :: 0 <= k < lo ==> Before(dv[k], name)
      invariant forall k :: hi <= k < |dv| ==> Before(name, dv[k])
      decreases hi - lo
    {
      var mid := lo + (hi - lo) / 2;
      if name == dv[mid] { return mid; }
      BeforeTotal(name, dv[mid]);
      if Before(name, dv[mid]) {
        forall k | mid <= k < |dv| ensures Before(name, dv[k]) {
          if mid < k { BeforeTransitive(name, dv[mid], dv[k]); }
        }
        hi := mid;
      } else {
        forall k | 0 <= k <= mid ensures Before(dv[k], name) {
          if k < mid { BeforeTransitive(dv[k], dv[mid], name); }
        }
        lo := mid + 1;
      }
    }
    BeforeIrreflexive(name);
    return -1;
  }

  predicate IsDot(name: string) {
    name == "." || name == ".."
  }

  /** What readdir yields, less the two entries every directory has. */
  function Real(src: seq<string>): seq<string> {
    if src == [] then []
    else if IsDot(src[|src| - 1]) then Real(src[..|src| - 1])
    else Real(src[..|src| - 1]) + [src[|src| - 1]]
  }

  /** Exactly "." and ".." are left out, and the rest keeps its order. */
  lemma RealLaws(src: seq<string>, name: string)
    ensures Real([]) == [] && Real(src + ["."]) == Real(src) && Real(src + [".."]) == Real(src)
    ensures name != "." && name != ".." ==> Real(src + [name]) == Real(src) + [name]
  {
    forall x ensures (src + [x])[..|src|] == src { }
  }

  lemma RealStep(src: seq<string>, i: nat)
    requires i < |src|
    ensures Real(src[..i + 1]) == if IsDot(src[i]) then Real(src[..i]) else Real(src[..i]) + [src[i]]
  {
    assert src[..i + 1][..i] == src[..i];
  }

  function Joined(batches: seq<seq<string>>): seq<string> {
    if batches == [] then [] else Joined(batches[..|batches| - 1]) + batches[|batches| - 1]
  }

  lemma JoinedStep(batches: seq<seq<string>>, batch: seq<string>)
    ensures Joined(batches + [batch]) == Joined(batches) + batch
  {
    assert (batches + [batch])[..|batches|] == batches;
  }

  /** seen[] marks exactly the destination names among those streamed so far. */
  ghost predicate Marks(seen: seq<bool>, dv: seq<string>, names: seq<string>) {
    |seen| == |dv| && forall j :: 0 <= j < |dv| ==> (seen[j] <==> dv[j] in names)
  }

  lemma MarkOne(seen: seq<bool>, dv: seq<string>, names: seq<string>, name: string, at: int)
    requires Ordered(dv) && Marks(seen, dv, names) && -1 <= at < |dv|
    requires if at >= 0 then dv[at] == name else name !in dv
    ensures Marks(if at >= 0 then seen[at := true] else seen, dv, names + [name])
  {
    forall j | 0 <= j < |dv| ensures dv[j] == name ==> j == at {
      if at >= 0 && j < at { BeforeIrreflexive(name); }
      if at >= 0 && at < j { BeforeIrreflexive(name); }
    }
  }

  /** Ship a full batch, keep a partial one. */
  method Collect(batches: seq<seq<string>>, batch: seq<string>, name: string, batchMax: nat)
    returns (batches': seq<seq<string>>, batch': seq<string>)
    requires |batch| < batchMax && forall k :: 0 <= k < |batches| ==> |batches[k]| == batchMax
    ensures |batch'| < batchMax && forall k :: 0 <= k < |batches'| ==> |batches'[k]| == batchMax
    ensures Joined(batches') + batch' == Joined(batches) + batch + [name]
  {
    batches', batch' := batches, batch + [name];
    if |batch'| >= batchMax {
      JoinedStep(batches, batch');
      batches', batch' := batches + [batch'], [];
    }
  }

  /** split_entrylist_stream: the batches are the source listing cut into pieces
      of batchMax names, the last one shorter; the orphans are the merge's, in the
      merge's order, though the source is never sorted. */
  method StreamDirectory(src: seq<string>, dv: seq<string>, batchMax: nat) returns (batches: seq<seq<string>>, orphans: seq<string>)
    requires Ordered(dv) && batchMax > 0
    ensures Joined(batches) == Real(src)
    ensures forall k :: 0 <= k < |batches| ==> 0 < |batches[k]| <= batchMax
    ensures forall k :: 0 <= k < |batches| - 1 ==> |batches[k]| == batchMax
    ensures orphans == Missing(dv, Real(src))
  {
    var seen: seq<bool>;
    var batch;
    batches, batch, seen := StreamNames(src, dv, batchMax);
    if batch != [] {
      JoinedStep(batches, batch);
      batches := batches + [batch];
    }
    orphans := Unmarked(dv, seen, Real(src));
  }

  method StreamNames(src: seq<string>, dv: seq<string>, batchMax: nat)
    returns (batches: seq<seq<string>>, batch: seq<string>, seen: seq<bool>)
    requires Ordered(dv) && batchMax > 0
    ensures Joined(batches) + batch == Real(src) && |batch| < batchMax
    ensures forall k :: 0 <= k < |batches| ==> |batches[k]| == batchMax
    ensures Marks(seen, dv, Real(src))
  {
    batches, batch := [], [];
    seen := seq(|dv|, _ => false);
    var i := 0;
    while i < |src|
      invariant 0 <= i <= |src|
      invariant Joined(batches) + batch == Real(src[..i]) && |batch| < batchMax
      invariant forall k :: 0 <= k < |batches| ==> |batches[k]| == batchMax
      invariant Marks(seen, dv, Real(src[..i]))
    {
      RealStep(src, i);
      if !IsDot(src[i]) {
        var at := DstFind(dv, src[i]);
        MarkOne(seen, dv, Real(src[..i]), src[i], at);
        if at >= 0 { seen := seen[at := true]; }
        batches, batch := Collect(batches, batch, src[i], batchMax);
      }
      i := i + 1;
    }
    assert src[..i] == src;
  }

  method Unmarked(dv: seq<string>, seen: seq<bool>, ghost names: seq<string>) returns (orphans: seq<string>)
    requires Marks(seen, dv, names)
    ensures orphans == Missing(dv, names)
  {
    orphans := [];
    var j := 0;
    while j < |dv|
      invariant 0 <= j <= |dv| && orphans == Missing(dv[..j], names)
    {
      MissingStep(dv, j, names);
      if !seen[j] { orphans := orphans + [dv[j]]; }
      j := j + 1;
    }
    assert dv[..j] == dv;
  }

  /** Streaming a directory reports what merging its sorted listing would. */
  lemma StreamRefinesMerge(src: seq<string>, sv: seq<string>, dv: seq<string>)
    requires forall x :: x in sv <==> x in Real(src)
    ensures Missing(dv, Real(src)) == Missing(dv, sv)
  {
    MissingSameNames(dv, Real(src), sv);
  }

  // ---------------------------------------------------------------------
  // prefetch_stats
  // ---------------------------------------------------------------------

  datatype Side = Source | Destination

  /** One statx request; its result is the kernel's answer for that name. */
  datatype Req = Req(side: Side, name: string)

  /** The destination positions the sorted intersection stops at, from (i, j). */
  function Common(sv: seq<string>, dv: seq<string>, i: nat, j: nat): seq<nat>
    requires i <= |sv| && j <= |dv|
    decreases |sv| - i + |dv| - j
  {
    if i == |sv| || j == |dv| then []
    else if Before(sv[i], dv[j]) then Common(sv, dv, i + 1, j)
    else if Before(dv[j], sv[i]) then Common(sv, dv, i, j + 1)
    else [j] + Common(sv, dv, i + 1, j + 1)
  }

  /** From matching cursors it finds exactly the names both sides have. */
  lemma {:induction false} CommonHas(sv: seq<string>, dv: seq<string>, i: nat, j: nat, x: nat)
    requires Ordered(sv) && Ordered(dv) && i <= |sv| && j <= |dv| && Passed(sv, dv, i, j)
    ensures x in Common(sv, dv, i, j) <==> j <= x < |dv| && dv[x] in sv
    decreases |sv| - i + |dv| - j
  {
    if i == |sv| {
      NoneLeft(sv, dv, j, x);
    } else if j < |dv| {
      if Before(sv[i], dv[j]) {
        SourceOnly(sv, dv, i, j);
        CommonHas(sv, dv, i + 1, j, x);
      } else if Before(dv[j], sv[i]) {
        DestOnly(sv, dv, i, j);
        CommonHas(sv, dv, i, j + 1, x);
      } else {
        BeforeTotal(sv[i], dv[j]);
        BothSides(sv, dv, i, j);
        CommonHas(sv, dv, i + 1, j + 1, x);
        assert dv[j] == sv[i] && sv[i] in sv;
      }
    }
  }

  lemma NoneLeft(sv: seq<string>, dv: seq<string>, j: nat, x: nat)
    requires j <= |dv| && Passed(sv, dv, |sv|, j)
    ensures j <= x < |dv| ==> dv[x] !in sv
  {
    if j <= x < |dv| { BeforeIrreflexive(dv[x]); }
  }

  lemma {:induction false} CommonIncreasing(sv: seq<string>, dv: seq<string>, i: nat, j: nat)
    requires i <= |sv| && j <= |dv|
    ensures forall k :: 0 <= k < |Common(sv, dv, i, j)| ==> j <= Common(sv, dv, i, j)[k] < |dv|
    ensures forall a, b :: 0 <= a < b < |Common(sv, dv, i, j)| ==> Common(sv, dv, i, j)[a] < Common(sv, dv, i, j)[b]
    decreases |sv| - i + |dv| - j
  {
    if i < |sv| && j < |dv| {
      if Before(sv[i], dv[j]) {
        CommonIncreasing(sv, dv, i + 1, j);
      } else if Before(dv[j], sv[i]) {
        CommonIncreasing(sv, dv, i, j + 1);
      } else {
        CommonIncreasing(sv, dv, i + 1, j + 1);
      }
    }
  }

  /** The requests for those positions. */
  function Wanted(dv: seq<string>, hits: seq<nat>): seq<Req>
    requires forall k :: 0 <= k < |hits| ==> hits[k] < |dv|
  {
    seq(|hits|, k requires 0 <= k < |hits| => Req(Destination, dv[hits[k]]))
  }

  function Queue(v: seq<string>): (r: seq<Req>)
    ensures |r| == |v| && forall k :: 0 <= k < |v| ==> r[k] == Req(Source, v[k])
  {
    seq(|v|, k requires 0 <= k < |v| => Req(Source, v[k]))
  }

  /** First traversal: one request per common name. */
  method RequestCommon(sv: seq<string>, dv: seq<string>) returns (reqs: seq<Req>)
    ensures forall k :: 0 <= k < |Common(sv, dv, 0, 0)| ==> Common(sv, dv, 0, 0)[k] < |dv|
    ensures reqs == Wanted(dv, Common(sv, dv, 0, 0))
  {
    CommonIncreasing(sv, dv, 0, 0);
    ghost var all := Common(sv, dv, 0, 0);
    reqs := [];
    var i, j := 0, 0;
    while i < |sv| && j < |dv|
      invariant 0 <= i <= |sv| && 0 <= j <= |dv| && |reqs| <= |all|
      invariant all[|reqs|..] == Common(sv, dv, i, j)
      invariant reqs == Wanted(dv, all)[..|reqs|]
      decreases |sv| - i + |dv| - j
    {
      if Before(sv[i], dv[j]) {
        i := i + 1;
      } else if Before(dv[j], sv[i]) {
        j := j + 1;
      } else {
        assert all[|reqs|] == all[|reqs|..][0] == j;
        assert all[|reqs| + 1..] == all[|reqs|..][1..];
        reqs := reqs + [Req(Destination, dv[j])];
        i, j := i + 1, j + 1;
      }
    }
    assert |reqs| == |all|;
  }

  /** Second traversal: the k-th result goes to the k-th common name. */
  method StoreCommon(sv: seq<string>, dv: seq<string>, res: seq<int>, out: array<int>)
    requires out.Length == |dv| && |res| == |Common(sv, dv, 0, 0)|
    modifies out
    ensures forall k :: 0 <= k < |res| ==> Common(sv, dv, 0, 0)[k] < |dv| && out[Common(sv, dv, 0, 0)[k]] == res[k]
    ensures forall j :: 0 <= j < |dv| && j !in Common(sv, dv, 0, 0) ==> out[j] == old(out[j])
  {
    CommonIncreasing(sv, dv, 0, 0);
    ghost var all := Common(sv, dv, 0, 0);
    var k, i, j := 0, 0, 0;
    while i < |sv| && j < |dv|
      invariant 0 <= i <= |sv| && 0 <= j <= |dv| && k <= |all|
      invariant all[k..] == Common(sv, dv, i, j)
      invariant forall a :: 0 <= a < k ==> out[all[a]] == res[a]
      invariant forall x :: 0 <= x < |dv| && x !in all ==> out[x] == old(out[x])
      decreases |sv| - i + |dv| - j
    {
      if Before(sv[i], dv[j]) {
        i := i + 1;
      } else if Before(dv[j], sv[i]) {
        j := j + 1;
      } else {
        assert all[k] == all[k..][0] == j;
        assert all[k + 1..] == all[k..][1..];
        out[j] := res[k];
        k := k + 1;
        i, j := i + 1, j + 1;
      }
    }
    assert k == |all|;
  }

  /** prefetch_stats: one batch of requests, each entry ends up with the result
      asked for in its own name; destination-only entries are left alone. */
  method PrefetchStats(sv: seq<string>, dv: seq<string>, haveDst: bool, stat: Req -> int, sres: array<int>, dres: array<int>)
    requires Ordered(sv) && Ordered(dv) && sres.Length == |sv| && dres.Length == |dv| && sres != dres
    modifies sres, dres
    ensures forall i :: 0 <= i < |sv| ==> sres[i] == stat(Req(Source, sv[i]))
    ensures forall j :: 0 <= j < |dv| ==>
              dres[j] == if haveDst && dv[j] in sv then stat(Req(Destination, dv[j])) else old(dres[j])
  {
    var reqs := Queue(sv);
    if haveDst {
      var more := RequestCommon(sv, dv);
      reqs := reqs + more;
    }
    // stat_batch
    var res := seq(|reqs|, k requires 0 <= k < |reqs| => stat(reqs[k]));
    var i := 0;
    while i < |sv|
      invariant 0 <= i <= |sv|
      invariant forall k :: 0 <= k < i ==> sres[k] == stat(Req(Source, sv[k]))
      invariant forall j :: 0 <= j < |dv| ==> dres[j] == old(dres[j])
    {
      sres[i] := res[i];
      i := i + 1;
    }
    if haveDst {
      StoreCommon(sv, dv, res[|sv|..], dres);
      forall j | 0 <= j < |dv| && dv[j] !in sv ensures dres[j] == old(dres[j]) {
        CommonHas(sv, dv, 0, 0, j);
      }
      OwnResults(sv, dv, stat, res[|sv|..], dres[..]);
    }
  }

  lemma OwnResults(sv: seq<string>, dv: seq<string>, stat: Req -> int, res: seq<int>, out: seq<int>)
    requires Ordered(sv) && Ordered(dv) && |out| == |dv| && |res| == |Common(sv, dv, 0, 0)|
    requires forall k :: 0 <= k < |res| ==>
               var j := Common(sv, dv, 0, 0)[k]; j < |dv| && res[k] == stat(Req(Destination, dv[j])) && out[j] == res[k]
    ensures forall j :: 0 <= j < |dv| && dv[j] in sv ==> out[j] == stat(Req(Destination, dv[j]))
  {
    var all := Common(sv, dv, 0, 0);
    forall j | 0 <= j < |dv| && dv[j] in sv ensures out[j] == stat(Req(Destination, dv[j])) {
      CommonHas(sv, dv, 0, 0, j);
      var k :| 0 <= k < |all| && all[k] == j;
    }
  }
}
