/** The life of one pass (coordinator/internal/passctrl/passctrl.go advance,
    seedPass, seedDeletePass): agents, operators, the lease expirer and the reaper
    change shard rows between any two store calls of the controller's tick. */
module PassPhases {

  datatype Option<+A> = None | Some(value: A)

  datatype Phase = Probing | Scanning | Dirfix | Linkfix | Verify | Deleting | Complete

  /** What a shard does. The store keeps the three chunk payloads under one kind. */
  datatype Kind =
    | ProbeMount
    | WalkDir | WalkEntries | ChunkData | ChunkFinalize
    | ChunkReclaim | FixDirs
    | FixLinks
    | VerifyFiles
    | DeletePaths

  datatype Row = Queued | Leased | Done | Parked

  datatype Shard = Shard(kind: Kind, row: Row)

  /** Where the controller's goroutine stands inside advance. */
  datatype Tick =
    | Idle
    | Retrying                                        // parked gate passed, rows not yet requeued
    | Seeding(plan: seq<seq<Kind>>, bases: seq<nat>)  // bases[i]: first id of inserted batch i

  /** One committed SetPassState, with the batches the tick had planned for it
      and the ids the store gave the batches it inserted. */
  datatype Flip = Flip(phase: Phase, plan: seq<seq<Kind>>, bases: seq<nat>)

  datatype Pass = Pass(
    phase: Phase,
    flips: seq<Flip>,
    shards: map<nat, Shard>,     // live rows
    ever: seq<Kind>,             // kind of every row ever inserted, by id
    unseeded: Option<seq<Kind>>, // CreatePass committed, its InsertShards not yet
    tick: Tick,
    autoRetried: bool,           // parkedAutoRetried, in memory only
    retries: nat,
    restarts: nat
  )

  datatype Step =
    // controller
    | SeedInsert
    | Count(plan: seq<seq<Kind>>)
    | RetryParked
    | InsertBatch
    | StorePhase
    | Abort
    | Restart
    | PruneProbe(id: nat)
    | Reap(id: nat)
    // agents and scheduler
    | Lease(id: nat)
    | Finish(id: nat, follow: seq<Kind>)
    | Requeue(id: nat)
    | Park(id: nat)
    | Split(id: nat, kids: seq<Kind>)
    // operator
    | RetryOne(id: nat)
    | Drop(id: nat)

  // ---------------------------------------------------------------------
  // Behaviour
  // ---------------------------------------------------------------------

  function Next(p: Phase): Phase {
    match p
    case Probing => Scanning
    case Scanning => Dirfix
    case Dirfix => Linkfix
    case Linkfix => Verify
    case Verify => Complete
    case Deleting => Complete
    case Complete => Complete
  }

  predicate AllAre(batch: seq<Kind>, k: Kind) {
    forall i :: 0 <= i < |batch| ==> batch[i] == k
  }

  /** The batches advance may insert before it leaves a phase. */
  predicate PlanFor(p: Phase, plan: seq<seq<Kind>>) {
    match p
    case Probing => plan == [[WalkDir]]
    case Scanning => forall i :: 0 <= i < |plan| ==>
        AllAre(plan[i], FixDirs) || (i == 0 && AllAre(plan[i], ChunkReclaim))
    case Dirfix => forall i :: 0 <= i < |plan| ==> AllAre(plan[i], FixLinks)
    case Linkfix => forall i :: 0 <= i < |plan| ==> AllAre(plan[i], VerifyFiles)
    case _ => plan == []
  }

  /** What a shard's own splits may ask for. */
  predicate KidOf(parent: Kind, kid: Kind) {
    match parent
    case WalkDir => kid == WalkDir || kid == WalkEntries || kid == ChunkData
    case WalkEntries => kid == WalkDir || kid == WalkEntries || kid == ChunkData
    case DeletePaths => kid == DeletePaths
    case _ => false
  }

  /** What the store inserts in the transaction that completes a shard. */
  predicate FollowOf(parent: Kind, kid: Kind) {
    match parent
    case ChunkData => kid == ChunkFinalize
    case DeletePaths => kid == DeletePaths
    case _ => false
  }

  /** Row ids the store hands out next. */
  function Ids(from: nat, count: nat): (r: set<nat>)
    ensures forall id :: id in r <==> from <= id < from + count
  {
    if count == 0 then {} else Ids(from, count - 1) + {from + count - 1}
  }

  /** InsertShards: fresh rows, all queued. */
  function Insert(s: Pass, kinds: seq<Kind>): Pass {
    var n := |s.ever|;
    s.(ever := s.ever + kinds,
       shards := map id | id in s.shards.Keys + Ids(n, |kinds|) ::
                   if n <= id < n + |kinds| then Shard(kinds[id - n], Queued) else s.shards[id])
  }

  predicate Is(s: Pass, id: nat, row: Row) {
    id in s.shards && s.shards[id].row == row
  }

  function Put(s: Pass, id: nat, row: Row): Pass
    requires id in s.shards
  {
    s.(shards := s.shards[id := s.shards[id].(row := row)])
  }

  function Move(s: Pass, id: nat, from: Row, to: Row): Pass {
    if Is(s, id, from) then Put(s, id, to) else s
  }

  function Remove(s: Pass, id: nat): Pass {
    s.(shards := s.shards - {id})
  }

  predicate AnyRow(s: Pass, row: Row) {
    exists id :: id in s.shards && s.shards[id].row == row
  }

  function Requeued(shards: map<nat, Shard>): map<nat, Shard> {
    map id | id in shards :: if shards[id].row == Parked then shards[id].(row := Queued) else shards[id]
  }

  function Counted(s: Pass, plan: seq<seq<Kind>>): Pass {
    if AnyRow(s, Queued) || AnyRow(s, Leased) then s
    else if AnyRow(s, Parked) then
      if s.autoRetried then s else s.(autoRetried := true, tick := Retrying)
    else s.(tick := Seeding(plan, []))
  }

  function Apply(s: Pass, t: Step): Pass {
    match t
    case SeedInsert => if s.unseeded.Some? then Insert(s, s.unseeded.value).(unseeded := None) else s
    case Count(plan) =>
      if s.tick.Idle? && s.phase != Complete && PlanFor(s.phase, plan) then Counted(s, plan) else s
    case RetryParked =>
      if s.tick.Retrying? then s.(shards := Requeued(s.shards), retries := s.retries + 1, tick := Idle) else s
    case InsertBatch =>
      if s.tick.Seeding? && |s.tick.bases| < |s.tick.plan| then
        Insert(s, s.tick.plan[|s.tick.bases|]).(tick := s.tick.(bases := s.tick.bases + [|s.ever|]))
      else s
    case StorePhase =>
      if s.tick.Seeding? && |s.tick.bases| == |s.tick.plan| then
        s.(phase := Next(s.phase), flips := s.flips + [Flip(Next(s.phase), s.tick.plan, s.tick.bases)], tick := Idle)
      else s
    case Abort => s.(tick := Idle)
    case Restart => s.(tick := Idle, autoRetried := false, restarts := s.restarts + 1)
    case PruneProbe(id) =>
      if s.phase == Probing && (Is(s, id, Queued) || Is(s, id, Leased)) && s.shards[id].kind == ProbeMount
      then Remove(s, id) else s
    case Reap(id) => if Is(s, id, Done) then Remove(s, id) else s
    case Lease(id) => Move(s, id, Queued, Leased)
    case Finish(id, follow) =>
      if Is(s, id, Leased) && (forall i :: 0 <= i < |follow| ==> FollowOf(s.shards[id].kind, follow[i]))
      then Insert(Put(s, id, Done), follow) else s
    case Requeue(id) => Move(s, id, Leased, Queued)
    case Park(id) => Move(s, id, Leased, Parked)
    case Split(id, kids) =>
      // RecordSplit looks the parent row up by id; it does not look at its state
      if id in s.shards && (forall i :: 0 <= i < |kids| ==> KidOf(s.shards[id].kind, kids[i]))
      then Insert(s, kids) else s
    case RetryOne(id) => Move(s, id, Parked, Queued)
    case Drop(id) => if Is(s, id, Parked) then Remove(s, id) else s
  }

  function Run(s: Pass, steps: seq<Step>): Pass
    decreases |steps|
  {
    if steps == [] then s else Run(Apply(s, steps[0]), steps[1..])
  }

  /** CreatePass with the shards its caller is about to insert. */
  predicate Created(p: Phase, seed: seq<Kind>) {
    || (p == Probing && AllAre(seed, ProbeMount))
    || (p == Scanning && seed == [WalkDir])
    || (p == Deleting && AllAre(seed, DeletePaths))
  }

  function Start(p: Phase, seed: seq<Kind>): Pass {
    Pass(p, [Flip(p, [], [])], map[], [], Some(seed), Idle, false, 0, 0)
  }

  // ---------------------------------------------------------------------
  // Hypotheses on the environment
  // ---------------------------------------------------------------------

  /** A split arrives while its parent is leased, and no tick looks at the pass
      between CreatePass and the InsertShards that follows it. */
  predicate Orderly(s: Pass, t: Step) {
    && (t.Split? && t.kids != [] ==> Is(s, t.id, Leased))
    && (t.Count? ==> s.unseeded.None?)
  }

  predicate AllOrderly(s: Pass, steps: seq<Step>)
    decreases |steps|
  {
    steps != [] ==> Orderly(s, steps[0]) && AllOrderly(Apply(s, steps[0]), steps[1..])
  }

  // ---------------------------------------------------------------------
  // Ranks: which phase a shard belongs to
  // ---------------------------------------------------------------------

  function Rank(k: Kind): nat {
    match k
    case ProbeMount => 0
    case WalkDir | WalkEntries | ChunkData | ChunkFinalize => 1
    case ChunkReclaim | FixDirs => 2
    case FixLinks => 3
    case VerifyFiles | DeletePaths => 4
  }

  function PhaseRank(p: Phase): nat {
    match p
    case Probing => 0
    case Scanning => 1
    case Dirfix => 2
    case Linkfix => 3
    case Verify | Deleting => 4
    case Complete => 5
  }

  /** Lowest rank a shard that is not done may have. */
  function Bar(s: Pass): nat {
    PhaseRank(s.phase) + if s.tick.Seeding? then 1 else 0
  }

  ghost predicate Active(s: Pass, id: nat) {
    id in s.shards && s.shards[id].row != Done
  }

  /** No shard of an earlier phase is queued, leased or parked: not below the
      bar, and not beside a row of a later phase. */
  ghost predicate Separated(s: Pass) {
    && (forall id :: Active(s, id) ==> Bar(s) <= Rank(s.shards[id].kind))
    && (forall id, j :: Active(s, id) && 0 <= j < |s.ever| ==> Rank(s.ever[j]) <= Rank(s.shards[id].kind))
  }

  /** Batch i of the plan occupies ids bases[i] .. bases[i] + |plan[i]|. */
  ghost predicate Placed(plan: seq<seq<Kind>>, bases: seq<nat>, ever: seq<Kind>) {
    && |bases| <= |plan|
    && (forall i :: 0 <= i < |bases| ==>
          bases[i] + |plan[i]| <= |ever| && ever[bases[i]..bases[i] + |plan[i]|] == plan[i])
    && (forall i, j :: 0 <= i < j < |bases| ==> bases[i] + |plan[i]| <= bases[j])
  }

  ghost predicate Rows(s: Pass) {
    forall id :: id in s.shards ==> id < |s.ever| && s.shards[id].kind == s.ever[id]
  }

  ghost predicate Planned(s: Pass) {
    s.tick.Seeding? ==>
      s.phase != Complete && PlanFor(s.phase, s.tick.plan) && Placed(s.tick.plan, s.tick.bases, s.ever)
  }

  /** Stored phases follow Next, and each was stored after all its batches. */
  ghost predicate Forward(s: Pass) {
    && |s.flips| > 0 && s.flips[|s.flips| - 1].phase == s.phase
    && (forall i :: 0 <= i < |s.flips| ==> Whole(s.flips[i], s.ever))
    && (forall i :: 0 <= i < |s.flips| - 1 ==> Follows(s.flips, i))
  }

  /** Every batch planned for the phase was inserted. */
  ghost predicate Whole(f: Flip, ever: seq<Kind>) {
    |f.bases| == |f.plan| && Placed(f.plan, f.bases, ever)
  }

  /** The phase after the i-th is the next one, stored with a plan for leaving the
      i-th, which is not COMPLETE. */
  ghost predicate Follows(flips: seq<Flip>, i: int)
    requires 0 <= i < |flips| - 1
  {
    && flips[i + 1].phase == Next(flips[i].phase) && flips[i].phase != Complete
    && PlanFor(flips[i].phase, flips[i + 1].plan)
  }

  ghost predicate Seed(s: Pass) {
    s.unseeded.Some? ==> Created(s.phase, s.unseeded.value) && s.tick.Idle? && s.ever == [] && s.shards == map[]
  }

  ghost predicate Retries(s: Pass) {
    s.retries + (if s.tick.Retrying? then 1 else 0) + (if s.autoRetried then 0 else 1) <= s.restarts + 1
  }

  /** Holds in every run, orderly or not. */
  ghost predicate Shape(s: Pass) {
    Rows(s) && Planned(s) && Forward(s) && Retries(s)
  }

  // ---------------------------------------------------------------------
  // Shape
  // ---------------------------------------------------------------------

  lemma PlacedGrows(plan: seq<seq<Kind>>, bases: seq<nat>, ever: seq<Kind>, more: seq<Kind>)
    requires Placed(plan, bases, ever)
    ensures Placed(plan, bases, ever + more)
  {
    forall i | 0 <= i < |bases| ensures (ever + more)[bases[i]..bases[i] + |plan[i]|] == plan[i] {
      assert (ever + more)[bases[i]..bases[i] + |plan[i]|] == ever[bases[i]..bases[i] + |plan[i]|];
    }
  }

  lemma InsertShape(s: Pass, kinds: seq<Kind>)
    requires Shape(s)
    ensures Shape(Insert(s, kinds))
  {
    var s' := Insert(s, kinds);
    if s.tick.Seeding? { PlacedGrows(s.tick.plan, s.tick.bases, s.ever, kinds); }
    forall i | 0 <= i < |s.flips| ensures Whole(s.flips[i], s'.ever) {
      assert Whole(s.flips[i], s.ever);
      PlacedGrows(s.flips[i].plan, s.flips[i].bases, s.ever, kinds);
    }
  }

  lemma PlacedAppend(plan: seq<seq<Kind>>, bases: seq<nat>, ever: seq<Kind>)
    requires Placed(plan, bases, ever) && |bases| < |plan|
    ensures Placed(plan, bases + [|ever|], ever + plan[|bases|])
  {
    var batch := plan[|bases|];
    PlacedGrows(plan, bases, ever, batch);
    assert (ever + batch)[|ever|..|ever| + |batch|] == batch;
  }

  lemma BatchShape(s: Pass)
    requires Shape(s)
    ensures Shape(Apply(s, InsertBatch))
  {
    if s.tick.Seeding? && |s.tick.bases| < |s.tick.plan| {
      var batch := s.tick.plan[|s.tick.bases|];
      InsertShape(s, batch);
      PlacedAppend(s.tick.plan, s.tick.bases, s.ever);
      var s1 := Insert(s, batch);
      var s' := Apply(s, InsertBatch);
      assert s' == s1.(tick := s.tick.(bases := s.tick.bases + [|s.ever|]));
      assert Planned(s');
      ForwardFrame(s1, s');
    }
  }

  lemma ForwardFrame(s: Pass, s': Pass)
    requires Forward(s) && s'.flips == s.flips && s'.phase == s.phase && s'.ever == s.ever
    ensures Forward(s')
  {
  }

  lemma StoreShape(s: Pass)
    requires Shape(s)
    ensures Shape(Apply(s, StorePhase))
  {
    if s.tick.Seeding? && |s.tick.bases| == |s.tick.plan| {
      ForwardFlip(s, s.tick.plan, s.tick.bases);
    }
  }

  lemma ForwardFlip(s: Pass, plan: seq<seq<Kind>>, bases: seq<nat>)
    requires Forward(s) && s.phase != Complete && PlanFor(s.phase, plan)
    requires |bases| == |plan| && Placed(plan, bases, s.ever)
    ensures Forward(s.(phase := Next(s.phase), flips := s.flips + [Flip(Next(s.phase), plan, bases)], tick := Idle))
  {
    var flips := s.flips + [Flip(Next(s.phase), plan, bases)];
    forall i | 0 <= i < |flips| ensures Whole(flips[i], s.ever) {
      if i < |s.flips| { assert flips[i] == s.flips[i]; }
    }
    forall i | 0 <= i < |flips| - 1 ensures Follows(flips, i) {
      assert flips[i] == s.flips[i];
      if i < |s.flips| - 1 { assert Follows(s.flips, i) && flips[i + 1] == s.flips[i + 1]; }
    }
  }

  predicate RowStep(t: Step) {
    t.PruneProbe? || t.Reap? || t.Lease? || t.Requeue? || t.Park? || t.RetryOne? || t.Drop?
  }

  /** Agents, operators and the reaper move or remove rows; none wakes a done one. */
  lemma RowStepOnlyMoves(s: Pass, t: Step)
    requires RowStep(t)
    ensures var s' := Apply(s, t);
            && s' == s.(shards := s'.shards)
            && (forall id :: id in s'.shards ==> id in s.shards && s'.shards[id].kind == s.shards[id].kind)
            && (forall id :: Active(s', id) ==> Active(s, id))
  {
  }

  lemma RowStepShape(s: Pass, t: Step)
    requires Shape(s) && RowStep(t)
    ensures Shape(Apply(s, t))
  {
    RowStepOnlyMoves(s, t);
  }

  lemma TickShape(s: Pass, t: Step)
    requires Shape(s) && (t.Count? || t.RetryParked? || t.Abort? || t.Restart?)
    ensures Shape(Apply(s, t))
  {
  }

  lemma FinishShape(s: Pass, id: nat, follow: seq<Kind>)
    requires Shape(s)
    ensures Shape(Apply(s, Finish(id, follow)))
  {
    if Is(s, id, Leased) { InsertShape(Put(s, id, Done), follow); }
  }

  lemma StepShape(s: Pass, t: Step)
    requires Shape(s)
    ensures Shape(Apply(s, t))
  {
    match t
    case SeedInsert => if s.unseeded.Some? { InsertShape(s, s.unseeded.value); }
    case InsertBatch => BatchShape(s);
    case StorePhase => StoreShape(s);
    case Finish(id, follow) => FinishShape(s, id, follow);
    case Split(id, kids) => InsertShape(s, kids);
    case _ => if RowStep(t) { RowStepShape(s, t); } else { TickShape(s, t); }
  }

  lemma {:induction false} RunShape(s: Pass, steps: seq<Step>)
    requires Shape(s)
    ensures Shape(Run(s, steps))
    decreases |steps|
  {
    if steps != [] {
      StepShape(s, steps[0]);
      RunShape(Apply(s, steps[0]), steps[1..]);
    }
  }

  // ---------------------------------------------------------------------
  // Separation
  // ---------------------------------------------------------------------

  ghost predicate Inv(s: Pass) {
    Shape(s) && Separated(s) && Seed(s)
  }

  ghost predicate AllRank(kinds: seq<Kind>, r: nat) {
    forall i :: 0 <= i < |kinds| ==> Rank(kinds[i]) == r
  }

  /** Rows of one rank that is no lower than anything inserted so far may join,
      if everything active already has that rank. */
  lemma InsertSeparated(s: Pass, kinds: seq<Kind>, r: nat)
    requires Rows(s) && Separated(s) && AllRank(kinds, r) && Bar(s) <= r
    requires forall j :: 0 <= j < |s.ever| ==> Rank(s.ever[j]) <= r
    requires forall id :: Active(s, id) ==> r <= Rank(s.shards[id].kind)
    ensures Separated(Insert(s, kinds))
  {
    var s' := Insert(s, kinds);
    var n := |s.ever|;
    forall id: nat | Active(s', id)
      ensures Rank(s'.shards[id].kind) == r
    {
      if n <= id < n + |kinds| {
        assert s'.shards[id].kind == kinds[id - n];
      } else {
        assert Active(s, id) && s'.shards[id] == s.shards[id];
        assert s.shards[id].kind == s.ever[id];
      }
    }
    forall j | 0 <= j < |s'.ever| ensures Rank(s'.ever[j]) <= r {
      if j >= n { assert s'.ever[j] == kinds[j - n]; }
    }
  }

  /** A leased shard ranks with everything active and nothing inserted outranks it. */
  lemma ActiveIsTop(s: Pass, id: nat)
    requires Rows(s) && Separated(s) && Active(s, id)
    ensures Bar(s) <= Rank(s.shards[id].kind)
    ensures forall j :: 0 <= j < |s.ever| ==> Rank(s.ever[j]) <= Rank(s.shards[id].kind)
    ensures forall j :: Active(s, j) ==> Rank(s.shards[id].kind) == Rank(s.shards[j].kind)
  {
    forall j: nat | Active(s, j) ensures Rank(s.shards[id].kind) == Rank(s.shards[j].kind) {
      assert s.shards[id].kind == s.ever[id] && s.shards[j].kind == s.ever[j];
    }
  }

  lemma SplitSeparated(s: Pass, id: nat, kids: seq<Kind>)
    requires Inv(s) && Orderly(s, Split(id, kids))
    ensures Separated(Apply(s, Split(id, kids)))
  {
    if kids == [] {
      InsertNothing(s);
    } else if forall i :: 0 <= i < |kids| ==> KidOf(s.shards[id].kind, kids[i]) {
      ActiveIsTop(s, id);
      InsertSeparated(s, kids, Rank(s.shards[id].kind));
    }
  }

  lemma InsertNothing(s: Pass)
    ensures Insert(s, []) == s
  {
    assert Insert(s, []).shards == s.shards;
    assert s.ever + [] == s.ever;
  }

  lemma FinishSeparated(s: Pass, id: nat, follow: seq<Kind>)
    requires Inv(s)
    ensures Separated(Apply(s, Finish(id, follow)))
  {
    if Is(s, id, Leased) && forall i :: 0 <= i < |follow| ==> FollowOf(s.shards[id].kind, follow[i]) {
      ActiveIsTop(s, id);
      var s1 := Put(s, id, Done);
      assert forall j :: Active(s1, j) ==> Active(s, j) && s1.shards[j] == s.shards[j];
      InsertSeparated(s1, follow, Rank(s.shards[id].kind));
    }
  }

  /** The drain check: an empty phase may be seeded one rank up. */
  lemma CountSeparated(s: Pass, plan: seq<seq<Kind>>)
    requires Inv(s)
    ensures Separated(Apply(s, Count(plan)))
  {
    var s' := Apply(s, Count(plan));
    if s'.tick.Seeding? && !s.tick.Seeding? {
      assert !AnyRow(s, Queued) && !AnyRow(s, Leased) && !AnyRow(s, Parked);
      assert forall id :: id in s.shards ==> s.shards[id].row == Done;
    }
  }

  /** While seeding a phase nothing above the next rank was ever inserted. */
  ghost predicate Ceiling(s: Pass) {
    forall j :: 0 <= j < |s.ever| ==> Rank(s.ever[j]) <= PhaseRank(s.phase) + 1
  }

  lemma PlanRank(p: Phase, plan: seq<seq<Kind>>, i: nat)
    requires PlanFor(p, plan) && i < |plan|
    ensures AllRank(plan[i], PhaseRank(p) + 1)
  {
  }

  lemma BatchSeparated(s: Pass)
    requires Inv(s) && Ceiling(s)
    ensures Separated(Apply(s, InsertBatch))
  {
    if s.tick.Seeding? && |s.tick.bases| < |s.tick.plan| {
      PlanRank(s.phase, s.tick.plan, |s.tick.bases|);
      InsertSeparated(s, s.tick.plan[|s.tick.bases|], PhaseRank(s.phase) + 1);
    }
  }

  lemma SeedSeparated(s: Pass)
    requires Inv(s)
    ensures Separated(Apply(s, SeedInsert)) && Seed(Apply(s, SeedInsert))
  {
    if s.unseeded.Some? {
      InsertSeparated(s, s.unseeded.value, PhaseRank(s.phase));
    }
  }

  lemma StepSeparated(s: Pass, t: Step)
    requires Inv(s) && Ceiling(s) && Orderly(s, t)
    ensures Separated(Apply(s, t))
  {
    match t
    case SeedInsert => SeedSeparated(s);
    case Count(plan) => CountSeparated(s, plan);
    case InsertBatch => BatchSeparated(s);
    case Finish(id, follow) => FinishSeparated(s, id, follow);
    case Split(id, kids) => SplitSeparated(s, id, kids);
    case StorePhase => StoreSeparated(s);
    case _ => if RowStep(t) { RowStepSeparated(s, t); } else { TickSeparated(s, t); }
  }

  lemma StoreSeparated(s: Pass)
    requires Inv(s)
    ensures Separated(Apply(s, StorePhase))
  {
    assert forall id :: Active(Apply(s, StorePhase), id) ==> Active(s, id);
  }

  lemma RowStepSeparated(s: Pass, t: Step)
    requires Inv(s) && RowStep(t)
    ensures Separated(Apply(s, t))
  {
    RowStepOnlyMoves(s, t);
  }

  lemma TickSeparated(s: Pass, t: Step)
    requires Inv(s) && (t.RetryParked? || t.Abort? || t.Restart?)
    ensures Separated(Apply(s, t))
  {
    var s' := Apply(s, t);
    assert forall id :: Active(s', id) ==> Active(s, id) && s'.shards[id].kind == s.shards[id].kind;
  }

  lemma InsertCeiling(s: Pass, kinds: seq<Kind>)
    requires Ceiling(s)
    requires forall i :: 0 <= i < |kinds| ==> Rank(kinds[i]) <= PhaseRank(s.phase) + 1
    ensures Ceiling(Insert(s, kinds))
  {
  }

  lemma StepCeiling(s: Pass, t: Step)
    requires Inv(s) && Ceiling(s)
    ensures Ceiling(Apply(s, t))
  {
    match t
    case SeedInsert => if s.unseeded.Some? { InsertCeiling(s, s.unseeded.value); }
    case InsertBatch =>
      if s.tick.Seeding? && |s.tick.bases| < |s.tick.plan| {
        PlanRank(s.phase, s.tick.plan, |s.tick.bases|);
        InsertCeiling(s, s.tick.plan[|s.tick.bases|]);
      }
    case Finish(id, follow) =>
      if Is(s, id, Leased) && forall i :: 0 <= i < |follow| ==> FollowOf(s.shards[id].kind, follow[i]) {
        InsertCeiling(Put(s, id, Done), follow);
      }
    case Split(id, kids) =>
      if id in s.shards && forall i :: 0 <= i < |kids| ==> KidOf(s.shards[id].kind, kids[i]) {
        InsertCeiling(s, kids);
      }
    case _ =>
  }

  lemma StepSeed(s: Pass, t: Step)
    requires Inv(s) && Orderly(s, t)
    ensures Seed(Apply(s, t))
  {
    match t
    case Split(id, kids) => InsertNothing(s);
    case _ =>
  }

  lemma {:induction false} RunSeparated(s: Pass, steps: seq<Step>)
    requires Inv(s) && Ceiling(s) && AllOrderly(s, steps)
    ensures Inv(Run(s, steps)) && Ceiling(Run(s, steps))
    decreases |steps|
  {
    if steps != [] {
      StepShape(s, steps[0]);
      StepSeparated(s, steps[0]);
      StepCeiling(s, steps[0]);
      StepSeed(s, steps[0]);
      RunSeparated(Apply(s, steps[0]), steps[1..]);
    }
  }

  // ---------------------------------------------------------------------
  // Main results
  // ---------------------------------------------------------------------

  /** The phases of a pass, from the one it was created in. */
  function Course(p: Phase): seq<Phase> {
    var all := [Probing, Scanning, Dirfix, Linkfix, Verify, Complete];
    match p
    case Probing => all
    case Scanning => all[1..]
    case Dirfix => all[2..]
    case Linkfix => all[3..]
    case Verify => all[4..]
    case Deleting => [Deleting, Complete]
    case Complete => all[5..]
  }

  /** In every run whatever: the stored phases are those of the course, in order
      and without a gap, and each was stored only after all its planned batches had
      been inserted. */
  lemma PhasesMoveForward(p: Phase, seed: seq<Kind>, steps: seq<Step>)
    requires Created(p, seed)
    ensures var s := Run(Start(p, seed), steps);
            && Forward(s) && |s.flips| <= |Course(p)|
            && (forall i :: 0 <= i < |s.flips| ==> s.flips[i].phase == Course(p)[i])
  {
    RunShape(Start(p, seed), steps);
    FirstFlip(Start(p, seed), steps);
    OnCourse(p, Run(Start(p, seed), steps).flips, |Run(Start(p, seed), steps).flips|);
  }

  lemma {:induction false} OnCourse(p: Phase, flips: seq<Flip>, n: nat)
    requires 0 < n <= |flips| && flips[0].phase == p && forall i :: 0 <= i < |flips| - 1 ==> Follows(flips, i)
    ensures n <= |Course(p)| && forall i :: 0 <= i < n ==> flips[i].phase == Course(p)[i]
    decreases n
  {
    if n > 1 {
      OnCourse(p, flips, n - 1);
      assert Follows(flips, n - 2);
    }
  }

  lemma {:induction false} FirstFlip(s: Pass, steps: seq<Step>)
    requires |s.flips| > 0
    ensures |Run(s, steps).flips| > 0 && Run(s, steps).flips[0] == s.flips[0]
    decreases |steps|
  {
    if steps != [] { FirstFlip(Apply(s, steps[0]), steps[1..]); }
  }

  /** From a phase on, nothing of an earlier phase is queued, leased or parked;
      and shards of two phases are never active together, so a temp is reclaimed
      only when no chunk can still write it. */
  lemma PhaseSafety(p: Phase, seed: seq<Kind>, steps: seq<Step>)
    requires Created(p, seed) && AllOrderly(Start(p, seed), steps)
    ensures var s := Run(Start(p, seed), steps);
            && (forall id :: Active(s, id) ==> PhaseRank(s.phase) <= Rank(s.shards[id].kind))
            && (forall i, j :: Active(s, i) && Active(s, j) ==> Rank(s.shards[i].kind) == Rank(s.shards[j].kind))
            && (s.phase == Complete ==> forall id :: !Active(s, id))
  {
    var s0 := Start(p, seed);
    RunSeparated(s0, steps);
    var s := Run(s0, steps);
    forall i: nat, j: nat | Active(s, i) && Active(s, j) ensures Rank(s.shards[i].kind) == Rank(s.shards[j].kind) {
      ActiveIsTop(s, i);
    }
    forall id: nat ensures Active(s, id) ==> PhaseRank(s.phase) <= Rank(s.shards[id].kind) <= 4 {
    }
  }

  /** One automatic retry round per pass and coordinator process. */
  lemma AtMostOneAutoRetry(p: Phase, seed: seq<Kind>, steps: seq<Step>)
    requires Created(p, seed)
    ensures Run(Start(p, seed), steps).retries <= Run(Start(p, seed), steps).restarts + 1
  {
    RunShape(Start(p, seed), steps);
  }

  // ---------------------------------------------------------------------
  // What the steps achieve
  // ---------------------------------------------------------------------

  /** The automatic retry: every parked row is queued again, and nothing else
      about any row changes. */
  lemma RetryRoundFreesAll(s: Pass)
    requires s.tick.Retrying?
    ensures var s' := Apply(s, RetryParked);
            && s'.shards.Keys == s.shards.Keys && s'.retries == s.retries + 1 && s'.tick == Idle
            && (forall id :: id in s.shards ==>
                  && s'.shards[id].kind == s.shards[id].kind && s'.shards[id].row != Parked
                  && (s.shards[id].row == Parked ==> s'.shards[id].row == Queued)
                  && (s.shards[id].row != Parked ==> s'.shards[id].row == s.shards[id].row))
  {
  }

  /** The gate of a tick: it goes on to seed the next phase if and only if every row
      is done, and retries if and only if only parked rows hold it up for the first
      time in this process. */
  lemma GateIff(s: Pass, plan: seq<seq<Kind>>)
    requires s.tick.Idle? && s.phase != Complete && PlanFor(s.phase, plan)
    ensures var s' := Apply(s, Count(plan));
            && (s'.tick == Seeding(plan, []) <==> forall id :: id in s.shards ==> s.shards[id].row == Done)
            && (s'.tick == Retrying <==>
                  && !s.autoRetried && (exists id :: id in s.shards && s.shards[id].row == Parked)
                  && forall id :: id in s.shards ==> s.shards[id].row in {Done, Parked})
            && (s'.tick == Retrying ==> s'.autoRetried)
            && s'.shards == s.shards && s'.phase == s.phase
  {
  }

  /** A restarted coordinator has forgotten the tick it was in and that it retried
      anything; the rows are the store's. */
  lemma RestartForgets(s: Pass)
    ensures var s' := Apply(s, Restart);
            s' == s.(tick := Idle, autoRetried := s'.autoRetried, restarts := s'.restarts)
            && !s'.autoRetried && s'.restarts == s.restarts + 1
  {
  }

  /** How a pass begins: one probe per agent, or the root walk without agents, or
      the delete batches. */
  lemma PassesBegin(n: nat, p: Phase, seed: seq<Kind>)
    ensures Created(Probing, seq(n, _ => ProbeMount)) && Created(Scanning, [WalkDir]) && Created(Deleting, seq(n, _ => DeletePaths))
    ensures Created(p, seed) ==> p in {Probing, Scanning, Deleting} && forall i :: 0 <= i < |seed| ==> Rank(seed[i]) == PhaseRank(p)
    ensures var s := Start(p, seed);
            s.phase == p && s.shards == map[] && s.unseeded == Some(seed) && !s.autoRetried && s.retries == 0 && s.restarts == 0
  {
  }

  /** A pass held up by one parked walk, after its automatic retry. */
  ghost predicate RetriedWalk(s: Pass) {
    && s.phase == Scanning && s.tick == Idle && s.unseeded.None? && s.autoRetried
    && s.shards == map[0 := Shard(WalkDir, Queued)]
  }

  lemma RetryRound(s: Pass) returns (steps: seq<Step>)
    requires s.phase == Scanning && s.tick == Idle && s.unseeded.None? && s.shards == map[0 := Shard(WalkDir, Queued)]
    requires !s.autoRetried
    ensures var e := Run(s, steps); RetriedWalk(e) && e.retries == s.retries + 1 && e.restarts == s.restarts
  {
    steps := [Lease(0)] + ([Park(0)] + ([Count([])] + ([RetryParked] + [])));
    var s2 := s.(shards := map[0 := Shard(WalkDir, Parked)]);
    var s1 := Apply(s, Lease(0));
    assert Apply(s1, Park(0)) == s2 by { assert Apply(s1, Park(0)).shards == s2.shards; }
    assert AnyRow(s2, Parked) by { assert 0 in s2.shards; }
    var s3 := Apply(s2, Count([]));
    assert s3 == s2.(autoRetried := true, tick := Retrying);
    var s4 := Apply(s3, RetryParked);
    assert s4.shards == map[0 := Shard(WalkDir, Queued)];
    RunThen(s3, RetryParked, []);
    RunThen(s2, Count([]), [RetryParked] + []);
    RunThen(s1, Park(0), [Count([])] + ([RetryParked] + []));
    RunThen(s, Lease(0), [Park(0)] + ([Count([])] + ([RetryParked] + [])));
  }

  lemma RunThen(s: Pass, t: Step, rest: seq<Step>)
    ensures Run(s, [t] + rest) == Run(Apply(s, t), rest)
  {
    assert ([t] + rest)[1..] == rest;
  }

  lemma SeededWalk()
    ensures var s := Apply(Start(Scanning, [WalkDir]), SeedInsert);
            && s.shards == map[0 := Shard(WalkDir, Queued)] && s.unseeded.None? && s.phase == Scanning
            && s.tick == Idle && !s.autoRetried && s.retries == 0 && s.restarts == 0
  {
    assert Apply(Start(Scanning, [WalkDir]), SeedInsert).shards == map[0 := Shard(WalkDir, Queued)];
  }

  /** AtMostOneAutoRetry is exact: every coordinator process may retry once. */
  lemma {:induction false} OneRetryPerProcess(restarts: nat) returns (steps: seq<Step>)
    ensures var s := Run(Start(Scanning, [WalkDir]), steps);
            RetriedWalk(s) && s.restarts == restarts && s.retries == restarts + 1
  {
    var s0 := Start(Scanning, [WalkDir]);
    if restarts == 0 {
      SeededWalk();
      var rest := RetryRound(Apply(s0, SeedInsert));
      RunThen(s0, SeedInsert, rest);
      steps := [SeedInsert] + rest;
    } else {
      var before := OneRetryPerProcess(restarts - 1);
      var s := Run(s0, before);
      RestartForgets(s);
      var rest := RetryRound(Apply(s, Restart));
      RunThen(s, Restart, rest);
      RunAppend(s0, before, [Restart] + rest);
      steps := before + ([Restart] + rest);
    }
  }

  /** Leaving SCANNING, the temps of unfinished groups come first, if at all, then
      the directories; the other phases seed one kind each. */
  lemma PlansOfTicks(first: Kind, batches: seq<seq<Kind>>, k: Kind)
    requires forall i, j :: 0 <= i < |batches| && 0 <= j < |batches[i]| ==> batches[i][j] == k
    ensures k == FixDirs ==> PlanFor(Scanning, batches) && (PlanFor(Scanning, [[first]] + batches) <==> first in {FixDirs, ChunkReclaim})
    ensures k == FixLinks ==> PlanFor(Dirfix, batches) && (PlanFor(Dirfix, [[first]] + batches) <==> first == FixLinks)
    ensures k == VerifyFiles ==> PlanFor(Linkfix, batches) && (PlanFor(Linkfix, [[first]] + batches) <==> first == VerifyFiles)
    ensures PlanFor(Scanning, [[FixDirs]] + [[first]]) <==> first == FixDirs
    ensures PlanFor(Probing, [[first]]) <==> first == WalkDir
    ensures PlanFor(Verify, batches) || PlanFor(Deleting, batches) ==> batches == []
  {
    var plan := [[first]] + batches;
    assert plan[0] == [first] && [first][0] == first;
    assert forall i :: 0 <= i < |batches| ==> plan[i + 1] == batches[i];
    forall i | 0 <= i < |batches| ensures AllAre(batches[i], k) { }
    forall i | 0 < i < |plan| ensures AllAre(plan[i], k) { assert plan[i] == batches[i - 1]; }
    var two := [[FixDirs]] + [[first]];
    assert two[1] == [first] && two[1][0] == first && two[0] == [FixDirs];
  }

  /** Whose children a shard's splits and completion may bring. */
  lemma ChildrenOf(parent: Kind, kid: Kind)
    ensures KidOf(parent, kid) <==>
              || (parent in {WalkDir, WalkEntries} && kid in {WalkDir, WalkEntries, ChunkData})
              || (parent == DeletePaths && kid == DeletePaths)
    ensures FollowOf(parent, kid) <==>
              (parent == ChunkData && kid == ChunkFinalize) || (parent == DeletePaths && kid == DeletePaths)
    ensures KidOf(parent, kid) || FollowOf(parent, kid) ==> Rank(parent) == Rank(kid)
  {
  }

  /** The rows a row step is for ... */
  predicate Applies(t: Step, p: Phase, sh: Shard) {
    || (t.Lease? && sh.row == Queued)
    || ((t.Requeue? || t.Park?) && sh.row == Leased)
    || ((t.RetryOne? || t.Drop?) && sh.row == Parked)
    || (t.Reap? && sh.row == Done)
    || (t.PruneProbe? && p == Probing && sh.kind == ProbeMount && (sh.row == Queued || sh.row == Leased))
  }

  /** ... and where it takes them; None means away. */
  function Lands(t: Step): Option<Row> {
    if t.Lease? then Some(Leased)
    else if t.Park? then Some(Parked)
    else if t.Requeue? || t.RetryOne? then Some(Queued)
    else None
  }

  /** A row step takes the row it names along its own edge, and touches no other. */
  lemma RowStepIff(s: Pass, t: Step, id: nat)
    requires RowStep(t)
    ensures var s' := Apply(s, t);
            if t.id == id && id in s.shards && Applies(t, s.phase, s.shards[id]) then
              match Lands(t)
              case None => id !in s'.shards
              case Some(row) => id in s'.shards && s'.shards[id] == Shard(s.shards[id].kind, row)
            else (id in s'.shards <==> id in s.shards) && (id in s.shards ==> s'.shards[id] == s.shards[id])
  {
  }

  lemma {:induction false} RunAppend(s: Pass, a: seq<Step>, b: seq<Step>)
    ensures Run(s, a + b) == Run(Run(s, a), b)
    ensures AllOrderly(s, a) && AllOrderly(Run(s, a), b) ==> AllOrderly(s, a + b)
    decreases |a|
  {
    if a == [] {
      assert a + b == b;
    } else {
      assert (a + b)[0] == a[0] && (a + b)[1..] == a[1..] + b;
      RunAppend(Apply(s, a[0]), a[1..], b);
    }
  }

  lemma StepThen(s: Pass, t: Step, rest: seq<Step>)
    requires Orderly(s, t) && AllOrderly(Apply(s, t), rest)
    ensures AllOrderly(s, [t] + rest) && Run(s, [t] + rest) == Run(Apply(s, t), rest)
  {
    assert ([t] + rest)[1..] == rest;
  }

  /** An active row can be brought to its end: retried if parked, leased, finished. */
  lemma RowCanEnd(s: Pass, id: nat) returns (steps: seq<Step>)
    requires Active(s, id)
    ensures AllOrderly(s, steps)
    ensures Run(s, steps) == s.(shards := s.shards[id := s.shards[id].(row := Done)])
  {
    var done := s.(shards := s.shards[id := s.shards[id].(row := Done)]);
    var leased := Put(s, id, Leased);
    InsertNothing(Put(leased, id, Done));
    assert Apply(leased, Finish(id, [])) == done by { assert Put(leased, id, Done).shards == done.shards; }
    StepThen(leased, Finish(id, []), []);
    steps := [Finish(id, [])] + [];
    if s.shards[id].row == Leased {
      assert leased.shards == s.shards;
    } else {
      var queued := Put(s, id, Queued);
      assert Apply(queued, Lease(id)) == leased by { assert Put(queued, id, Leased).shards == leased.shards; }
      StepThen(queued, Lease(id), steps);
      steps := [Lease(id)] + steps;
      if s.shards[id].row == Queued {
        assert queued.shards == s.shards;
      } else {
        StepThen(s, RetryOne(id), steps);
        steps := [RetryOne(id)] + steps;
      }
    }
  }

  ghost function ActiveIds(s: Pass): set<nat> {
    set id | id in s.shards && s.shards[id].row != Done
  }

  lemma {:induction false} RowsCanDrain(s: Pass) returns (steps: seq<Step>)
    ensures AllOrderly(s, steps)
    ensures var e := Run(s, steps); e == s.(shards := e.shards) && ActiveIds(e) == {}
    decreases |ActiveIds(s)|
  {
    steps := [];
    if ActiveIds(s) != {} {
      var id :| id in ActiveIds(s);
      var a := RowCanEnd(s, id);
      var s1 := Run(s, a);
      assert ActiveIds(s1) == ActiveIds(s) - {id};
      var b := RowsCanDrain(s1);
      RunAppend(s, a, b);
      steps := a + b;
    }
  }

  /** What a tick has to insert at least. */
  function LeastPlan(p: Phase): (plan: seq<seq<Kind>>)
    ensures PlanFor(p, plan)
  {
    if p == Probing then [[WalkDir]] else []
  }

  /** A drained phase can be left. */
  lemma PhaseCanEnd(s: Pass) returns (steps: seq<Step>)
    requires s.unseeded.None? && s.phase != Complete && ActiveIds(s) == {}
    ensures AllOrderly(s, steps)
    ensures Run(s, steps).phase == Next(s.phase) && Run(s, steps).unseeded.None?
  {
    var plan := LeastPlan(s.phase);
    var s1 := Apply(s, Abort);
    assert forall id :: id in s1.shards ==> s1.shards[id].row == Done by {
      forall id | id in s1.shards ensures s1.shards[id].row == Done { assert id !in ActiveIds(s); }
    }
    GateIff(s1, plan);
    var s2 := Apply(s1, Count(plan));
    steps := [StorePhase] + [];
    if plan == [] {
      StepThen(s2, StorePhase, []);
    } else {
      StepThen(Apply(s2, InsertBatch), StorePhase, []);
      StepThen(s2, InsertBatch, steps);
      steps := [InsertBatch] + steps;
    }
    StepThen(s1, Count(plan), steps);
    StepThen(s, Abort, [Count(plan)] + steps);
    steps := [Abort] + ([Count(plan)] + steps);
  }

  lemma {:induction false} SeededCanComplete(s: Pass) returns (steps: seq<Step>)
    requires s.unseeded.None?
    ensures AllOrderly(s, steps)
    ensures Run(s, steps).phase == Complete && ActiveIds(Run(s, steps)) == {}
    decreases 5 - PhaseRank(s.phase)
  {
    var a := RowsCanDrain(s);
    steps := a;
    if s.phase != Complete {
      var s1 := Run(s, a);
      var b := PhaseCanEnd(s1);
      var c := SeededCanComplete(Run(s1, b));
      RunAppend(s1, b, c);
      RunAppend(s, a, b + c);
      steps := a + (b + c);
    }
  }

  /** No pass is stuck for good: from every state of every run some orderly
      continuation completes it with every row done. */
  lemma PassCanComplete(p: Phase, seed: seq<Kind>, steps: seq<Step>) returns (more: seq<Step>)
    ensures AllOrderly(Run(Start(p, seed), steps), more)
    ensures var s := Run(Start(p, seed), steps + more); s.phase == Complete && forall id :: !Active(s, id)
  {
    var s := Run(Start(p, seed), steps);
    if s.unseeded.Some? {
      var rest := SeededCanComplete(Apply(s, SeedInsert));
      StepThen(s, SeedInsert, rest);
      more := [SeedInsert] + rest;
    } else {
      more := SeededCanComplete(s);
    }
    RunAppend(Start(p, seed), steps, more);
    var e := Run(s, more);
    forall id: nat ensures !Active(e, id) { assert id !in ActiveIds(e); }
  }

  // ---------------------------------------------------------------------
  // When a split is safe
  // ---------------------------------------------------------------------

  /** A split keeps the phases apart exactly when its parent's kind is not below
      the bar and nothing of a later phase was ever inserted; being leased is
      sufficient (SplitSeparated). */
  lemma SplitSafeIff(s: Pass, id: nat, kids: seq<Kind>)
    requires Inv(s) && id in s.shards && kids != []
    requires forall i :: 0 <= i < |kids| ==> KidOf(s.shards[id].kind, kids[i])
    ensures Separated(Apply(s, Split(id, kids)))
       <==> Bar(s) <= Rank(s.shards[id].kind) && forall j :: 0 <= j < |s.ever| ==> Rank(s.ever[j]) <= Rank(s.shards[id].kind)
  {
    var r := Rank(s.shards[id].kind);
    var n := |s.ever|;
    var s' := Apply(s, Split(id, kids));
    assert s' == Insert(s, kids);
    assert KidOf(s.shards[id].kind, kids[0]) && Rank(kids[0]) == r;
    assert Active(s', n) && s'.shards[n].kind == kids[0];
    if Separated(s') {
      forall j | 0 <= j < |s.ever| ensures Rank(s.ever[j]) <= r {
        assert s'.ever[j] == s.ever[j];
      }
    }
    if Bar(s) <= r && forall j :: 0 <= j < |s.ever| ==> Rank(s.ever[j]) <= r {
      assert s.ever[id] == s.shards[id].kind;
      InsertSeparated(s, kids, r);
    }
  }

  function LateSplitRun(): seq<Step> {
    [SeedInsert, Lease(0), Finish(0, [])] + [Count([]), StorePhase, Split(0, [WalkDir])]
  }

  /** A split replayed after its parent completed puts a walk back in DIRFIX. */
  lemma LateSplitBreaks()
    ensures var s := Run(Start(Scanning, [WalkDir]), LateSplitRun());
            s.phase == Dirfix && s.shards == map[0 := Shard(WalkDir, Done), 1 := Shard(WalkDir, Queued)]
  {
    WalkOnce([Count([]), StorePhase, Split(0, [WalkDir])]);
    LateSplitTail();
  }

  lemma WalkOnce(rest: seq<Step>)
    ensures Run(Start(Scanning, [WalkDir]), [SeedInsert, Lease(0), Finish(0, [])] + rest) == Run(WalkedPass(), rest)
  {
    var run := [SeedInsert, Lease(0), Finish(0, [])] + rest;
    var s0 := Start(Scanning, [WalkDir]);
    var s1 := s0.(shards := map[0 := Shard(WalkDir, Queued)], ever := [WalkDir], unseeded := None);
    var s2 := s1.(shards := map[0 := Shard(WalkDir, Leased)]);
    assert Apply(s0, SeedInsert) == s1 by { assert Insert(s0, [WalkDir]).shards == s1.shards; }
    assert Apply(s1, Lease(0)) == s2 by { assert Put(s1, 0, Leased).shards == s2.shards; }
    assert Apply(s2, Finish(0, [])) == WalkedPass() by {
      InsertNothing(Put(s2, 0, Done));
      assert Put(s2, 0, Done).shards == WalkedPass().shards;
    }
    RunOne(s0, run);
    RunOne(s1, run[1..]);
    RunOne(s2, run[1..][1..]);
    assert run[1..][1..][1..] == rest;
  }

  function WalkedPass(): Pass {
    Start(Scanning, [WalkDir]).(shards := map[0 := Shard(WalkDir, Done)], ever := [WalkDir], unseeded := None)
  }

  lemma RunOne(s: Pass, steps: seq<Step>)
    requires steps != []
    ensures Run(s, steps) == Run(Apply(s, steps[0]), steps[1..])
  {
  }

  lemma LateSplitTail()
    ensures var s := Run(WalkedPass(), [Count([]), StorePhase, Split(0, [WalkDir])]);
            s.phase == Dirfix && s.shards == map[0 := Shard(WalkDir, Done), 1 := Shard(WalkDir, Queued)]
  {
    var run := [Count([]), StorePhase, Split(0, [WalkDir])];
    var s3 := WalkedPass();
    RunOne(s3, run);
    var s4 := Apply(s3, Count([]));
    assert s4.tick == Seeding([], []);
    RunOne(s4, run[1..]);
    var s5 := Apply(s4, StorePhase);
    assert s5.phase == Dirfix;
    RunOne(s5, run[2..]);
    var s6 := Apply(s5, Split(0, [WalkDir]));
    assert s6.shards == map[0 := Shard(WalkDir, Done), 1 := Shard(WalkDir, Queued)];
  }

  /** A tick that drains a pass before its first insert keeps the phases apart
      exactly when there is nothing to insert. */
  lemma EarlyTickSafeIff(s: Pass, plan: seq<seq<Kind>>)
    requires Inv(s) && s.unseeded.Some? && PlanFor(s.phase, plan)
    ensures Separated(Apply(Apply(s, Count(plan)), SeedInsert)) <==> s.unseeded.value == []
  {
    var s1 := Apply(s, Count(plan));
    assert s1 == s.(tick := Seeding(plan, []));
    var seed := s.unseeded.value;
    var s2 := Apply(s1, SeedInsert);
    if seed == [] {
      InsertNothing(s1);
    } else {
      assert s2.shards[0] == Shard(seed[0], Queued) && Active(s2, 0);
      assert Rank(seed[0]) == PhaseRank(s.phase) < Bar(s2);
    }
  }

  /** A tick between CreatePass and the insert of the root shard (no agent to
      probe) finds an empty phase and skips the walk. */
  lemma EarlyTickSkipsWalk()
    ensures var s := Run(Start(Scanning, [WalkDir]), [Count([]), StorePhase, SeedInsert]);
            s.phase == Dirfix && s.shards == map[0 := Shard(WalkDir, Queued)]
  {
    var steps := [Count([]), StorePhase, SeedInsert];
    var s0 := Start(Scanning, [WalkDir]);
    var s1 := Apply(s0, Count([]));
    assert s1.tick == Seeding([], []);
    var s2 := Apply(s1, StorePhase);
    var s3 := Apply(s2, SeedInsert);
    assert s3.shards == map[0 := Shard(WalkDir, Queued)];
    assert steps[1..][1..][1..] == [];
    assert Run(s1, steps[1..]) == Run(s2, steps[1..][1..]) == Run(s3, []);
  }
}
