/** Parked-shard emails (coordinator/internal/passctrl/passctrl.go
    checkParkedShards): one alert per parking, rolled up per job. */
module ParkedAlerts {

  datatype Option<+A> = None | Some(value: A)

  /** Jobs are only ever compared, so a number stands for the name. */
  type JobName = nat
  datatype Parked = Parked(id: int, job: JobName)

  /** parkedRollupState; lastSent is None for the zero time. */
  datatype Roll = Roll(lastSent: Option<int>, pending: seq<Parked>)

  type Batches = map<JobName, seq<Parked>>

  // ---------------------------------------------------------------------
  // One tick, as values
  // ---------------------------------------------------------------------

  function IdsOf(all: seq<Parked>): set<int> {
    set i | 0 <= i < |all| :: all[i].id
  }

  /** The rows of one tick no alert covers yet, in listing order. */
  function Fresh(all: seq<Parked>, alerted: set<int>): seq<Parked> {
    if all == [] then []
    else
      var rest := Fresh(all[..|all| - 1], alerted);
      var sh := all[|all| - 1];
      if sh.id in alerted || sh.id in IdsOf(all[..|all| - 1]) then rest else rest + [sh]
  }

  function ForJob(shards: seq<Parked>, job: JobName): seq<Parked> {
    if shards == [] then []
    else
      var rest := ForJob(shards[..|shards| - 1], job);
      var sh := shards[|shards| - 1];
      if sh.job == job then rest + [sh] else rest
  }

  function RollOf(rolls: map<JobName, Roll>, job: JobName): Roll {
    if job in rolls then rolls[job] else Roll(None, [])
  }

  function BatchOf(batches: Batches, job: JobName): seq<Parked> {
    if job in batches then batches[job] else []
  }

  /** The window since the job's last email is over (or there was none). */
  predicate Open(r: Roll, now: int, window: int) {
    r.lastSent.None? || now - r.lastSent.value >= window
  }

  /** Everything waiting goes out in one email, or everything waits. */
  function NextRoll(r: Roll, news: seq<Parked>, now: int, window: int): Roll {
    if r.pending == [] && news == [] then r
    else if Open(r, now, window) then Roll(Some(now), [])
    else Roll(r.lastSent, r.pending + news)
  }

  function Sent(r: Roll, news: seq<Parked>, now: int, window: int): seq<Parked> {
    if Open(r, now, window) then r.pending + news else []
  }

  /** A job that holds rows back has been emailed before. */
  ghost predicate Held(rolls: map<JobName, Roll>) {
    forall j :: j in rolls && rolls[j].pending != [] ==> rolls[j].lastSent.Some?
  }

  // ---------------------------------------------------------------------
  // The controller's maps
  // ---------------------------------------------------------------------

  class Alerts {
    var parkedAlerted: set<int>
    var parkedRollup: map<JobName, Roll>

    constructor ()
      ensures parkedAlerted == {} && parkedRollup == map[]
    {
      parkedAlerted, parkedRollup := {}, map[];
    }

    /** The rows not alerted on yet, by job; afterwards exactly the rows still
        parked count as alerted. */
    method Collect(all: seq<Parked>) returns (newByJob: Batches)
      modifies this`parkedAlerted
      ensures parkedAlerted == IdsOf(all)
      ensures forall j :: BatchOf(newByJob, j) == ForJob(Fresh(all, old(parkedAlerted)), j)
      ensures forall j :: j in newByJob ==> newByJob[j] != []
    {
      newByJob := map[];
      var stillParked: set<int> := {};
      ghost var was := parkedAlerted;
      var i := 0;
      while i < |all|
        invariant 0 <= i <= |all|
        invariant stillParked == IdsOf(all[..i])
        invariant parkedAlerted == was + stillParked
        invariant forall j :: BatchOf(newByJob, j) == ForJob(Fresh(all[..i], was), j)
        invariant forall j :: j in newByJob ==> newByJob[j] != []
      {
        var sh := all[i];
        FreshStep(all, i, was);
        if sh.id !in parkedAlerted {
          newByJob := newByJob[sh.job := BatchOf(newByJob, sh.job) + [sh]];
          parkedAlerted := parkedAlerted + {sh.id};
        }
        stillParked := stillParked + {sh.id};
        i := i + 1;
      }
      assert all[..i] == all;
      parkedAlerted := set id | id in parkedAlerted && id in stillParked;
    }

    /** Jobs with new parks: send now or hold. */
    method SendOrHold(newByJob: Batches, now: int, window: int) returns (toSend: Batches)
      requires forall j :: j in newByJob ==> newByJob[j] != []
      modifies this`parkedRollup
      ensures forall j :: RollOf(parkedRollup, j) ==
                if j in newByJob then NextRoll(RollOf(old(parkedRollup), j), newByJob[j], now, window)
                else RollOf(old(parkedRollup), j)
      ensures forall j :: BatchOf(toSend, j) ==
                if j in newByJob then Sent(RollOf(old(parkedRollup), j), newByJob[j], now, window) else []
    {
      toSend := map[];
      ghost var was := parkedRollup;
      var todo := newByJob.Keys;
      while |todo| > 0
        invariant todo <= newByJob.Keys
        invariant forall j :: RollOf(parkedRollup, j) ==
                    if j in newByJob && j !in todo then NextRoll(RollOf(was, j), newByJob[j], now, window)
                    else RollOf(was, j)
        invariant forall j :: BatchOf(toSend, j) ==
                    if j in newByJob && j !in todo then Sent(RollOf(was, j), newByJob[j], now, window) else []
        decreases |todo|
      {
        var job :| job in todo;
        var st := RollOf(parkedRollup, job);
        if Open(st, now, window) {
          toSend := toSend[job := st.pending + newByJob[job]];
          parkedRollup := parkedRollup[job := Roll(Some(now), [])];
        } else {
          parkedRollup := parkedRollup[job := Roll(st.lastSent, st.pending + newByJob[job])];
        }
        todo := todo - {job};
      }
    }

    /** Jobs whose window has run out are flushed even without a new park. */
    method FlushDue(sending: Batches, now: int, window: int) returns (toSend: Batches)
      requires Held(parkedRollup)
      modifies this`parkedRollup
      ensures forall j :: RollOf(parkedRollup, j) == NextRoll(RollOf(old(parkedRollup), j), [], now, window)
      ensures forall j :: BatchOf(toSend, j) ==
                Joined(BatchOf(sending, j), Sent(RollOf(old(parkedRollup), j), [], now, window))
    {
      toSend := sending;
      ghost var was := parkedRollup;
      var todo := parkedRollup.Keys;
      NothingHeld(now, window);
      while |todo| > 0
        invariant todo <= was.Keys && parkedRollup.Keys == was.Keys
        invariant forall j :: RollOf(parkedRollup, j) ==
                    if j in todo then RollOf(was, j) else NextRoll(RollOf(was, j), [], now, window)
        invariant forall j :: BatchOf(toSend, j) ==
                    if j in todo then BatchOf(sending, j)
                    else Joined(BatchOf(sending, j), Sent(RollOf(was, j), [], now, window))
        decreases |todo|
      {
        var job :| job in todo;
        var st := parkedRollup[job];
        FlushOne(RollOf(was, job), now, window);
        if st.pending != [] && st.lastSent.Some? && now - st.lastSent.value >= window {
          toSend := toSend[job := BatchOf(toSend, job) + st.pending];
          parkedRollup := parkedRollup[job := Roll(Some(now), [])];
        }
        todo := todo - {job};
      }
    }

    /** One tick: per job, what was held and what is new is sent together when
        the window is open and held together otherwise. */
    method CheckParkedShards(all: seq<Parked>, now: int, window: int) returns (toSend: Batches)
      requires Held(parkedRollup)
      modifies this
      ensures Held(parkedRollup)
      ensures parkedAlerted == IdsOf(all)
      ensures forall j ::
                var news := ForJob(Fresh(all, old(parkedAlerted)), j);
                && RollOf(parkedRollup, j) == NextRoll(RollOf(old(parkedRollup), j), news, now, window)
                && BatchOf(toSend, j) == Sent(RollOf(old(parkedRollup), j), news, now, window)
    {
      ghost var was := parkedRollup;
      var newByJob := Collect(all);
      var sending := SendOrHold(newByJob, now, window);
      ghost var mid := parkedRollup;
      forall j | j in mid && mid[j].pending != [] ensures mid[j].lastSent.Some? {
        assert RollOf(mid, j) == mid[j];
      }
      toSend := FlushDue(sending, now, window);
      forall j
        ensures var news := BatchOf(newByJob, j);
                && RollOf(parkedRollup, j) == NextRoll(RollOf(was, j), news, now, window)
                && BatchOf(toSend, j) == Sent(RollOf(was, j), news, now, window)
      {
        TwoLoops(RollOf(was, j), BatchOf(newByJob, j), now, window);
      }
      forall j | j in parkedRollup && parkedRollup[j].pending != [] ensures parkedRollup[j].lastSent.Some? {
        assert RollOf(parkedRollup, j) == parkedRollup[j];
      }
    }
  }

  function Joined(a: seq<Parked>, b: seq<Parked>): seq<Parked> {
    if b == [] then a else a + b
  }

  lemma NothingHeld(now: int, window: int)
    ensures NextRoll(Roll(None, []), [], now, window) == Roll(None, [])
    ensures Sent(Roll(None, []), [], now, window) == []
  {
  }

  lemma FlushOne(r: Roll, now: int, window: int)
    requires r.pending != [] ==> r.lastSent.Some?
    ensures var due := r.pending != [] && r.lastSent.Some? && now - r.lastSent.value >= window;
            && NextRoll(r, [], now, window) == (if due then Roll(Some(now), []) else r)
            && Sent(r, [], now, window) == (if due then r.pending else [])
  {
    assert r.pending + [] == r.pending;
  }

  lemma FreshStep(all: seq<Parked>, i: nat, alerted: set<int>)
    requires i < |all|
    ensures IdsOf(all[..i + 1]) == IdsOf(all[..i]) + {all[i].id}
    ensures Fresh(all[..i + 1], alerted) ==
              if all[i].id in alerted || all[i].id in IdsOf(all[..i]) then Fresh(all[..i], alerted)
              else Fresh(all[..i], alerted) + [all[i]]
    ensures forall j :: ForJob(Fresh(all[..i], alerted) + [all[i]], j) ==
              ForJob(Fresh(all[..i], alerted), j) + if all[i].job == j then [all[i]] else []
  {
    var one := all[..i + 1];
    assert one[..i] == all[..i] && one[i] == all[i];
    var ids := IdsOf(all[..i]) + {all[i].id};
    forall id | id in ids ensures id in IdsOf(one) {
      if id in IdsOf(all[..i]) {
        var k :| 0 <= k < i && all[..i][k].id == id;
        assert one[k].id == id;
      } else {
        assert one[i].id == id;
      }
    }
    forall id | id in IdsOf(one) ensures id in ids {
      var k :| 0 <= k < |one| && one[k].id == id;
      if k < i { assert all[..i][k].id == id; }
    }
    var f := Fresh(all[..i], alerted) + [all[i]];
    assert f[..|f| - 1] == Fresh(all[..i], alerted);
  }

  /** Sending or holding the new rows and then flushing is one decision. */
  lemma TwoLoops(r: Roll, news: seq<Parked>, now: int, window: int)
    requires r.pending != [] ==> r.lastSent.Some?
    ensures var mid := if news != [] then NextRoll(r, news, now, window) else r;
            var sent := if news != [] then Sent(r, news, now, window) else [];
            && NextRoll(mid, [], now, window) == NextRoll(r, news, now, window)
            && Joined(sent, Sent(mid, [], now, window)) == Sent(r, news, now, window)
  {
    assert r.pending + [] == r.pending;
    if news != [] {
      var mid := NextRoll(r, news, now, window);
      assert mid.pending + [] == mid.pending;
    }
  }

  // ---------------------------------------------------------------------
  // Runs
  // ---------------------------------------------------------------------

  /** Seen from one job: the ticks' clock readings and newly parked rows. */
  datatype Tick = Tick(now: int, news: seq<Parked>)
  datatype Email = Email(at: int, shards: seq<Parked>)

  predicate ClockForward(ticks: seq<Tick>) {
    forall i, k :: 0 <= i < k < |ticks| ==> ticks[i].now <= ticks[k].now
  }

  function RollAfter(ticks: seq<Tick>, window: int): Roll {
    if ticks == [] then Roll(None, [])
    else
      var t := ticks[|ticks| - 1];
      NextRoll(RollAfter(ticks[..|ticks| - 1], window), t.news, t.now, window)
  }

  function Emails(ticks: seq<Tick>, window: int): seq<Email> {
    if ticks == [] then []
    else
      var before := ticks[..|ticks| - 1];
      var t := ticks[|ticks| - 1];
      var out := Sent(RollAfter(before, window), t.news, t.now, window);
      Emails(before, window) + if out == [] then [] else [Email(t.now, out)]
  }

  function AllFresh(ticks: seq<Tick>): seq<Parked> {
    if ticks == [] then [] else AllFresh(ticks[..|ticks| - 1]) + ticks[|ticks| - 1].news
  }

  function AllMailed(emails: seq<Email>): seq<Parked> {
    if emails == [] then [] else AllMailed(emails[..|emails| - 1]) + emails[|emails| - 1].shards
  }

  lemma AllMailedStep(mails: seq<Email>, m: Email)
    ensures AllMailed(mails + [m]) == AllMailed(mails) + m.shards
  {
    assert (mails + [m])[..|mails|] == mails;
  }

  lemma MailedStep(sent: seq<Parked>, held: seq<Parked>, news: seq<Parked>)
    ensures sent + (held + news) == sent + held + news
    ensures sent + (held + news) + [] == sent + held + news
    ensures held == [] && news == [] ==> sent + held + news == sent + held
  {
  }

  /** Every parking is in exactly one email, in order, or still held. */
  lemma {:induction false} EachParkingMailedOnce(ticks: seq<Tick>, window: int)
    ensures AllMailed(Emails(ticks, window)) + RollAfter(ticks, window).pending == AllFresh(ticks)
  {
    if ticks != [] {
      var before := ticks[..|ticks| - 1];
      var t := ticks[|ticks| - 1];
      var r := RollAfter(before, window);
      EachParkingMailedOnce(before, window);
      var out := Sent(r, t.news, t.now, window);
      var mails := Emails(before, window);
      MailedStep(AllMailed(mails), r.pending, t.news);
      if out != [] {
        AllMailedStep(mails, Email(t.now, out));
      } else {
        assert Emails(ticks, window) == mails;
      }
    }
  }

  // ---------------------------------------------------------------------
  // Runs over listings
  // ---------------------------------------------------------------------

  /** What one tick reads: the clock and the parked rows. */
  datatype Look = Look(now: int, all: seq<Parked>)

  /** The ids an alert covers when tick k begins: those tick k - 1 listed. */
  function Covered(looks: seq<Look>, k: nat): set<int>
    requires k <= |looks|
  {
    if k == 0 then {} else IdsOf(looks[k - 1].all)
  }

  /** The ticks as one job sees them. */
  function TicksOf(looks: seq<Look>, job: JobName): (r: seq<Tick>)
    ensures |r| == |looks|
  {
    if looks == [] then []
    else
      var k := |looks| - 1;
      TicksOf(looks[..k], job) + [Tick(looks[k].now, ForJob(Fresh(looks[k].all, Covered(looks, k)), job))]
  }

  /** Tick k lists the row and the tick before did not: the row parked anew. */
  predicate ParksAt(looks: seq<Look>, k: nat, sh: Parked)
    requires k < |looks|
  {
    sh in looks[k].all && sh.id !in Covered(looks, k)
  }

  /** How often the row parked. */
  function Parkings(looks: seq<Look>, sh: Parked): nat {
    if looks == [] then 0
    else Parkings(looks[..|looks| - 1], sh) + if ParksAt(looks, |looks| - 1, sh) then 1 else 0
  }

  predicate DistinctIds(all: seq<Parked>) {
    forall i, k :: 0 <= i < k < |all| ==> all[i].id != all[k].id
  }

  lemma LastSplit(s: seq<Parked>, sh: Parked)
    requires s != []
    ensures multiset(s)[sh] == multiset(s[..|s| - 1])[sh] + if s[|s| - 1] == sh then 1 else 0
  {
    assert s == s[..|s| - 1] + [s[|s| - 1]];
  }

  lemma {:induction false} ForJobCount(shards: seq<Parked>, sh: Parked)
    ensures multiset(ForJob(shards, sh.job))[sh] == multiset(shards)[sh]
  {
    if shards != [] {
      LastSplit(shards, sh);
      ForJobCount(shards[..|shards| - 1], sh);
    }
  }

  /** A listing with distinct ids reports a row once if no alert covers its id. */
  lemma {:induction false} FreshCount(all: seq<Parked>, ids: set<int>, sh: Parked)
    requires DistinctIds(all)
    ensures multiset(Fresh(all, ids))[sh] == if sh in all && sh.id !in ids then 1 else 0
  {
    if all != [] {
      var init, last := all[..|all| - 1], all[|all| - 1];
      FreshCount(init, ids, sh);
      assert last.id !in IdsOf(init);
      assert sh in all <==> sh in init || sh == last;
      assert last !in init;
    }
  }

  lemma {:induction false} FreshSum(looks: seq<Look>, sh: Parked)
    requires forall k :: 0 <= k < |looks| ==> DistinctIds(looks[k].all)
    ensures multiset(AllFresh(TicksOf(looks, sh.job)))[sh] == Parkings(looks, sh)
  {
    if looks != [] {
      var k := |looks| - 1;
      var ticks := TicksOf(looks, sh.job);
      FreshSum(looks[..k], sh);
      FreshCount(looks[k].all, Covered(looks, k), sh);
      ForJobCount(Fresh(looks[k].all, Covered(looks, k)), sh);
      assert ticks[..k] == TicksOf(looks[..k], sh.job);
    }
  }

  /** Over every run of ticks: a row is in emails, or held for the next one, as
      often as it parked. */
  lemma EachParkingReported(looks: seq<Look>, window: int, sh: Parked)
    requires forall k :: 0 <= k < |looks| ==> DistinctIds(looks[k].all)
    ensures var ticks := TicksOf(looks, sh.job);
            multiset(AllMailed(Emails(ticks, window)))[sh] + multiset(RollAfter(ticks, window).pending)[sh]
            == Parkings(looks, sh)
  {
    var ticks := TicksOf(looks, sh.job);
    EachParkingMailedOnce(ticks, window);
    FreshSum(looks, sh);
    assert multiset(AllMailed(Emails(ticks, window)) + RollAfter(ticks, window).pending)
           == multiset(AllMailed(Emails(ticks, window))) + multiset(RollAfter(ticks, window).pending);
  }

  /** The controller's loop, as one job sees it: the emails are those of the
      listings' own run. */
  method Watch(looks: seq<Look>, window: int, job: JobName) returns (mails: seq<Email>)
    ensures mails == Emails(TicksOf(looks, job), window)
  {
    var c := new Alerts();
    mails := [];
    var k := 0;
    while k < |looks|
      invariant 0 <= k <= |looks| && Held(c.parkedRollup)
      invariant c.parkedAlerted == Covered(looks, k)
      invariant RollOf(c.parkedRollup, job) == RollAfter(TicksOf(looks[..k], job), window)
      invariant mails == Emails(TicksOf(looks[..k], job), window)
    {
      TicksStep(looks, k, job);
      var toSend := c.CheckParkedShards(looks[k].all, looks[k].now, window);
      if BatchOf(toSend, job) != [] {
        mails := mails + [Email(looks[k].now, BatchOf(toSend, job))];
      }
      k := k + 1;
    }
    assert looks[..k] == looks;
  }

  lemma TicksStep(looks: seq<Look>, k: nat, job: JobName)
    requires k < |looks|
    ensures TicksOf(looks[..k + 1], job)
            == TicksOf(looks[..k], job) + [Tick(looks[k].now, ForJob(Fresh(looks[k].all, Covered(looks, k)), job))]
    ensures TicksOf(looks[..k + 1], job)[..k] == TicksOf(looks[..k], job)
  {
    assert looks[..k + 1][..k] == looks[..k];
    assert k > 0 ==> looks[..k + 1][k - 1] == looks[k - 1];
  }

  ghost predicate Spaced(emails: seq<Email>, window: int) {
    forall i, k :: 0 <= i < k < |emails| ==> emails[k].at - emails[i].at >= window
  }

  /** The last send is the last email; who holds rows back has sent before. */
  ghost predicate Tidy(mails: seq<Email>, r: Roll, window: int) {
    && Spaced(mails, window)
    && (r.lastSent.Some? <==> mails != [])
    && (mails != [] ==> mails[|mails| - 1].at == r.lastSent.value)
    && (r.pending != [] ==> r.lastSent.Some?)
  }

  ghost predicate NoneAfter(mails: seq<Email>, now: int) {
    forall i :: 0 <= i < |mails| ==> mails[i].at <= now
  }

  function Mailed(mails: seq<Email>, now: int, out: seq<Parked>): seq<Email> {
    if out == [] then mails else mails + [Email(now, out)]
  }

  lemma TidyStep(mails: seq<Email>, r: Roll, t: Tick, window: int)
    requires Tidy(mails, r, window) && NoneAfter(mails, t.now) && window >= 0
    ensures var mails' := Mailed(mails, t.now, Sent(r, t.news, t.now, window));
            Tidy(mails', NextRoll(r, t.news, t.now, window), window) && NoneAfter(mails', t.now)
  {
    var out := Sent(r, t.news, t.now, window);
    if out != [] { SpacedMore(mails, Email(t.now, out), window); }
  }

  /** Two emails of one job are never closer than the window. */
  lemma {:induction false} EmailsSpaced(ticks: seq<Tick>, window: int)
    requires ClockForward(ticks) && window >= 0
    ensures Tidy(Emails(ticks, window), RollAfter(ticks, window), window)
    ensures ticks != [] ==> NoneAfter(Emails(ticks, window), ticks[|ticks| - 1].now)
  {
    if ticks != [] {
      var before, t := ticks[..|ticks| - 1], ticks[|ticks| - 1];
      EmailsSpaced(before, window);
      if before != [] { assert before[|before| - 1].now <= t.now; }
      var mails, r := Emails(before, window), RollAfter(before, window);
      TidyStep(mails, r, t, window);
      assert Emails(ticks, window) == Mailed(mails, t.now, Sent(r, t.news, t.now, window));
    }
  }

  lemma SpacedMore(mails: seq<Email>, m: Email, window: int)
    requires Spaced(mails, window) && window >= 0
    requires mails != [] ==> m.at - mails[|mails| - 1].at >= window
    ensures Spaced(mails + [m], window)
  {
    var all := mails + [m];
    forall i, k | 0 <= i < k < |all| ensures all[k].at - all[i].at >= window {
      if k == |mails| && i < |mails| - 1 {
        assert mails[|mails| - 1].at - mails[i].at >= window;
      }
    }
  }

  /** Promptness: a tick sends whenever something waits and the window is open,
      and leaves something waiting only while it is closed. */
  lemma SendsWhenDue(ticks: seq<Tick>, window: int)
    requires ticks != []
    ensures var before := ticks[..|ticks| - 1];
            var t := ticks[|ticks| - 1];
            var r := RollAfter(before, window);
            var due := r.pending + t.news != [] && Open(r, t.now, window);
            && Emails(ticks, window) == Emails(before, window) +
                 (if due then [Email(t.now, r.pending + t.news)] else [])
            && (RollAfter(ticks, window).pending != [] ==>
                  r.lastSent.Some? && RollAfter(ticks, window).lastSent == r.lastSent
                  && t.now < r.lastSent.value + window)
  {
  }

  /** A row of a listing with distinct ids is new exactly when the previous tick
      did not list it. */
  lemma {:induction false} FreshIff(all: seq<Parked>, previous: seq<Parked>, sh: Parked)
    requires forall i, k :: 0 <= i < k < |all| ==> all[i].id != all[k].id
    ensures sh in Fresh(all, IdsOf(previous)) <==> sh in all && forall i :: 0 <= i < |previous| ==> previous[i].id != sh.id
  {
    if all != [] {
      var init := all[..|all| - 1];
      var last := all[|all| - 1];
      FreshIff(init, previous, sh);
      assert last.id !in IdsOf(init);
      assert forall x :: x in all <==> x in init || x == last;
    }
  }
}
