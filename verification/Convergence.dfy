/** When a job stops (coordinator/internal/passctrl/passctrl.go decideNextPass). */
module Convergence {
  import opened WalkModel
  import WalkPass
  import WalkRun
  import WalkShards

  datatype Spec = Spec(
    max: int,            // passes.max
    manual: bool,        // passes.schedule: manual
    filesBelow: nat,     // converge_when.delta_files_below, 0 when unset
    bytesBelow: nat      // converge_when.delta_bytes_below, 0 when unset
  )

  /** Counters of a finished pass. */
  datatype Delta = Delta(files: nat, meta: nat, bytes: nat)

  datatype JobState = Running | JobCompleted

  datatype Outcome = Finished(converged: bool) | AwaitTrigger | StartPass(no: nat)

  predicate Quiet(d: Delta) {
    d.files == 0 && d.meta == 0 && d.bytes == 0
  }

  predicate Converged(spec: Spec, d: Delta) {
    Quiet(d) || d.files + d.meta < spec.filesBelow || d.bytes < spec.bytesBelow
  }

  function Ceiling(spec: Spec, dryRun: bool): int {
    if dryRun then 1 else spec.max
  }

  function Decide(spec: Spec, dryRun: bool, passNo: nat, d: Delta): Outcome {
    if Converged(spec, d) || passNo >= Ceiling(spec, dryRun) then Finished(Converged(spec, d))
    else if spec.manual then AwaitTrigger
    else StartPass(passNo + 1)
  }

  /** The delta that counts as convergence: none at all, or one under a limit the
      job sets. */
  predicate Small(spec: Spec, d: Delta) {
    || (d.files == 0 && d.meta == 0 && d.bytes == 0)
    || (spec.filesBelow > 0 && d.files + d.meta < spec.filesBelow)
    || (spec.bytesBelow > 0 && d.bytes < spec.bytesBelow)
  }

  /** The last pass the job may have. */
  predicate AtCeiling(spec: Spec, dryRun: bool, passNo: nat) {
    if dryRun then passNo >= 1 else passNo >= spec.max
  }

  /** The decision, case by case. A limit of 0 is no limit: no delta is below it. */
  lemma DecideIff(spec: Spec, dryRun: bool, passNo: nat, d: Delta)
    ensures var out, stop := Decide(spec, dryRun, passNo, d), Small(spec, d) || AtCeiling(spec, dryRun, passNo);
            && (out == Finished(true) <==> Small(spec, d))
            && (out == Finished(false) <==> stop && !Small(spec, d))
            && (out == AwaitTrigger <==> !stop && spec.manual)
            && (forall n :: out == StartPass(n) <==> !stop && !spec.manual && n == passNo + 1)
  {
  }

  /** The job row and its newest pass. */
  class Job {
    const spec: Spec
    const dryRun: bool
    var state: JobState
    var passNo: nat
    var between: bool    // the newest pass is COMPLETE

    constructor (spec: Spec, dryRun: bool)
      ensures this.spec == spec && this.dryRun == dryRun
      ensures state == Running && passNo == 1 && !between
    {
      this.spec := spec;
      this.dryRun := dryRun;
      state, passNo, between := Running, 1, false;
    }

    method DecideNextPass(done: Delta) returns (jobDone: bool, converged: bool)
      requires state == Running && between
      modifies this
      ensures var out := Decide(spec, dryRun, old(passNo), done);
              && (jobDone <==> Small(spec, done) || AtCeiling(spec, dryRun, old(passNo)))
              && (converged <==> Small(spec, done)) && jobDone == out.Finished?
              && converged == (out.Finished? && out.converged)
              && state == (if jobDone then JobCompleted else Running)
              && passNo == (if out.StartPass? then out.no else old(passNo))
              && between == !out.StartPass?
    {
      converged := done.files == 0 && done.meta == 0 && done.bytes == 0;
      if spec.filesBelow > 0 && done.files + done.meta < spec.filesBelow { converged := true; }
      if spec.bytesBelow > 0 && done.bytes < spec.bytesBelow { converged := true; }
      var maxPasses := spec.max;
      if dryRun { maxPasses := 1; }
      if converged || passNo >= maxPasses {
        state := JobCompleted;
        return true, converged;
      }
      if spec.manual { return false, false; }
      passNo := passNo + 1;
      between := false;
      return false, false;
    }
  }

  // ---------------------------------------------------------------------
  // Whole jobs
  // ---------------------------------------------------------------------

  /** The pass a job stops at when pass k ends with deltas(k) and nobody
      triggers further passes. */
  function LastPass(spec: Spec, dryRun: bool, deltas: nat -> Delta, passNo: nat): nat
    decreases Ceiling(spec, dryRun) - passNo
  {
    var out := Decide(spec, dryRun, passNo, deltas(passNo));
    if out.StartPass? then LastPass(spec, dryRun, deltas, out.no) else passNo
  }

  /** A pass ends the job's own run. */
  predicate Stops(spec: Spec, dryRun: bool, deltas: nat -> Delta, k: nat) {
    Small(spec, deltas(k)) || AtCeiling(spec, dryRun, k) || spec.manual
  }

  lemma {:induction false} LastPassIsFirstStop(spec: Spec, dryRun: bool, deltas: nat -> Delta, passNo: nat)
    ensures var last := LastPass(spec, dryRun, deltas, passNo);
            && passNo <= last
            && Stops(spec, dryRun, deltas, last)
            && (forall k :: passNo <= k < last ==> !Stops(spec, dryRun, deltas, k))
            && (!spec.manual ==> Decide(spec, dryRun, last, deltas(last)) == Finished(Small(spec, deltas(last))))
    decreases Ceiling(spec, dryRun) - passNo
  {
    if Decide(spec, dryRun, passNo, deltas(passNo)).StartPass? {
      LastPassIsFirstStop(spec, dryRun, deltas, passNo + 1);
    }
  }

  /** A job left to itself starts at most max(1, passes.max) passes, a dry run
      exactly one, and none after a pass that changed nothing. */
  lemma PassesAreBounded(spec: Spec, dryRun: bool, deltas: nat -> Delta)
    ensures var last := LastPass(spec, dryRun, deltas, 1);
            && 1 <= last <= (if spec.max > 1 then spec.max else 1)
            && (dryRun ==> last == 1)
            && (forall k :: 1 <= k && Quiet(deltas(k)) ==> last <= k)
  {
    var last := LastPass(spec, dryRun, deltas, 1);
    LastPassIsFirstStop(spec, dryRun, deltas, 1);
    if last > 1 { assert !Stops(spec, dryRun, deltas, last - 1); }
    assert forall k :: Quiet(deltas(k)) ==> Stops(spec, dryRun, deltas, k);
  }

  // ---------------------------------------------------------------------
  // The walk's fixpoint ends the job
  // ---------------------------------------------------------------------

  /** The pass counters a walk's log adds up to, as far as zero is concerned. */
  ghost predicate Tallies(log: multiset<Event>, d: Delta) {
    && (d.files > 0 ==> exists p :: Did(p, Copied) in log || Did(p, Chunked) in log)
    && (d.meta > 0 ==> exists p :: Did(p, Kind.MetaFixed) in log)
    && (d.bytes > 0 ==> exists p :: Did(p, Copied) in log || Did(p, Chunked) in log)
  }

  /** An unchanged source makes the second pass the job's last. */
  lemma SettledJobCompletes(spec: Spec, o: Opts, o2: Opts, s: Src, d: Dst, dir: Path, delta: Delta)
    requires s.SDir? && d.DDir? && WellFormed(s)
    requires WalkPass.NextPass(o, o2) && o.times && o.slop >= 0 && WalkPass.AclsPreservable(o, s)
    requires Tallies(PlainDir(o2, s, PlainDir(o, s, d, dir).dst, dir).log, delta)
    ensures Decide(spec, false, 2, delta) == Finished(true)
  {
    WalkPass.SecondPassQuiet(o, o2, s, d, dir);
  }

  /** A job whose split threshold is 2^64 - 1 copies nothing in its first pass and
      is declared converged, whatever the source holds. */
  lemma WrappedJobConverges(spec: Spec, o: Opts, s: Src, d: Dst, first: WalkRun.Grant, sched: WalkRun.Schedule, delta: Delta)
    requires s.SDir? && d.DDir? && WellFormed(s) && first.splitAt == WalkShards.U64 - 1
    requires Tallies(WalkRun.Run(o, s, d, first, sched).log, delta)
    ensures Decide(spec, false, 1, delta) == Finished(true)
  {
    WalkRun.WrappedRunCopiesNothing(o, s, d, first, sched);
  }
}
