/**
 * One attempt with the counter table to itself: the statement-by-statement
 * limiter refines an order-free decision over the table it found.
 */
module OpenDecision {
  import opened Common
  import opened WindowMath
  import opened OpenLimiter
  import OpenPolicy

  datatype Verdict = Allow | Deny(denial: Denial)

  predicate EveryCounterUnderCap(st: Store, job: Job) {
    forall i :: 0 <= i < |job.plan| ==> UnderCap(st, job.plan[i].key, job.plan[i].cap)
  }

  predicate CooldownOver(st: Store, job: Job, now: int) {
    job.cooldownSubject.Some? ==> CooldownElapsed(st, job.cooldownSubject.value, job.cooldownS, now)
  }

  /** The first charge of the plan, from index i, whose counter is at its cap. */
  function FirstAtCap(st: Store, plan: seq<Charge>, i: nat): (r: nat)
    requires i <= |plan|
    ensures i <= r <= |plan|
    ensures forall j :: i <= j < r ==> UnderCap(st, plan[j].key, plan[j].cap)
    ensures r < |plan| ==> !UnderCap(st, plan[r].key, plan[r].cap)
    decreases |plan| - i
  {
    if i < |plan| && UnderCap(st, plan[i].key, plan[i].cap) then FirstAtCap(st, plan, i + 1) else i
  }

  /** The whole decision, read off the table before the attempt: cooldown, then counters in order, then the claim. */
  function Decide(st: Store, job: Job, dbNow: int): Verdict {
    var i := FirstAtCap(st, job.plan, 0);
    if FastPathDenies(st, job) then Deny(Denial(OpenCooldown, CooldownHint(st, job)))
    else if i < |job.plan| then Deny(job.WindowRefusal(job.plan[i].limit))
    else if !CooldownOver(st, job, dbNow) then Deny(Denial(OpenCooldown, Max(1, CooldownHint(st, job))))
    else Allow
  }

  /** Admission does not depend on the order of the checks. */
  lemma AdmitsExactly(st: Store, job: Job, dbNow: int)
    ensures Decide(st, job, dbNow) == Allow
            <==> !FastPathDenies(st, job) && EveryCounterUnderCap(st, job) && CooldownOver(st, job, dbNow)
    ensures Decide(st, job, dbNow).Deny? ==> Decide(st, job, dbNow).denial.retryAfterS >= 1
  {
    WindowHintIsLeast(job.now, HOUR_S, 0);
    WindowHintIsLeast(job.now, DAY_S, 0);
  }

  /** Every denial names a limit really exhausted: a charge of that limit is at its cap, or the cooldown still runs. */
  lemma DenialNamesAnExhaustedLimit(st: Store, job: Job, dbNow: int)
    requires job.Ok() && Decide(st, job, dbNow).Deny?
    ensures var limit := Decide(st, job, dbNow).denial.limit;
            if limit.OpenCooldown? then !CooldownOver(st, job, job.now) || !CooldownOver(st, job, dbNow)
            else exists i :: 0 <= i < |job.plan| && job.plan[i].limit == limit
                             && !UnderCap(st, job.plan[i].key, job.plan[i].cap)
  {
    var i := FirstAtCap(st, job.plan, 0);
    assert i < |job.plan| ==> !UnderCap(st, job.plan[i].key, job.plan[i].cap);
  }

  /**
   * When the caller's clock and the database's agree, the read-only fast path
   * denies exactly when the authoritative claim would lose, so it never
   * changes allow into deny or back.
   */
  lemma FastPathAgreesWithClaim(st: Store, job: Job)
    ensures FastPathDenies(st, job) <==> !CooldownOver(st, job, job.now)
    ensures Decide(st, job, job.now) == Allow <==> EveryCounterUnderCap(st, job) && CooldownOver(st, job, job.now)
  {
    AdmitsExactly(st, job, job.now);
  }

  /** The decision as it would be without the fast path: the counters, then the claim. */
  function DecideWithoutFastPath(st: Store, job: Job, dbNow: int): Verdict {
    var i := FirstAtCap(st, job.plan, 0);
    if i < |job.plan| then Deny(job.WindowRefusal(job.plan[i].limit))
    else if !CooldownOver(st, job, dbNow) then Deny(Denial(OpenCooldown, Max(1, CooldownHint(st, job))))
    else Allow
  }

  /**
   * With any two clocks, the fast path turns an open the rest of the limiter
   * admits into a denial exactly when the cooldown is over by the database's
   * clock and not by the caller's; it never turns a denial into an open.
   */
  lemma FastPathChangesTheVerdictIff(st: Store, job: Job, dbNow: int)
    ensures Decide(st, job, dbNow).Allow? != DecideWithoutFastPath(st, job, dbNow).Allow?
            <==> EveryCounterUnderCap(st, job) && CooldownOver(st, job, dbNow) && !CooldownOver(st, job, job.now)
    ensures Decide(st, job, dbNow).Allow? ==> DecideWithoutFastPath(st, job, dbNow).Allow?
  {
    AdmitsExactly(st, job, dbNow);
    FastPathAgreesWithClaim(st, job);
  }

  /** A request that meets this: opened at 0, asked again at 5 s by its own clock and at 10 s by the database's. */
  const SLOW_CALLER :=
    Request(Some("u"), None, "gate", "loc", "acct", 5000, Config(10, 60, 500), Quota(None, None, false))

  lemma SlowCallerClockOverdenies()
    ensures var st := Store(map[], map["user:u|ap:gate" := 0]);
            && Decide(st, SLOW_CALLER.ToJob(), 10000).Deny?
            && DecideWithoutFastPath(st, SLOW_CALLER.ToJob(), 10000).Allow?
  {
    var st, job := Store(map[], map["user:u|ap:gate" := 0]), SLOW_CALLER.ToJob();
    assert "user:" + "u" + "|ap:" + "gate" == "user:u|ap:gate";
    assert EveryCounterUnderCap(st, job);
    FastPathChangesTheVerdictIff(st, job, 10000);
  }

  // -- The policy ----------------------------------------------------------------------

  lemma WindowsAre(now: int)
    ensures FixedWindowStart(now, HOUR_S) == OpenPolicy.Hour(now)
    ensures FixedWindowStart(now, DAY_S) == OpenPolicy.Day(now)
    ensures OpenPolicy.LeastSeconds(now, OpenPolicy.Hour(now) + 3_600_000, SecondsUntilWindowEnd(now, HOUR_S))
    ensures OpenPolicy.LeastSeconds(now, OpenPolicy.Day(now) + 86_400_000, SecondsUntilWindowEnd(now, DAY_S))
  {
    WindowStartUnique(now, HOUR_S, now / 3_600_000);
    WindowStartUnique(now, DAY_S, now / 86_400_000);
  }

  lemma PlanIs(req: Request)
    ensures var member := if req.quota.isAdmin then None else req.quota.member;
            var location := if req.quota.isAdmin then None else req.quota.location;
            var account :=
              Charge(OpenPolicy.AccountHourKey(req), Some(req.cfg.accountOpensPerHour), AccountOpensPerHour);
            var place := Charge(OpenPolicy.LocationDayKey(req), location, LocationOpensPerDay);
            req.ToJob().plan
            == match OpenPolicy.Who(req)
               case None => [account, place]
               case Some(who) =>
                 [Charge(OpenPolicy.MemberHourKey(who, req), Some(req.cfg.opensPerHour), MemberOpensPerHour), account,
                  Charge(OpenPolicy.MemberDayKey(who, req), member, MemberOpensPerDay), place]
    ensures req.ToJob().cooldownS == req.cfg.openCooldownS && req.ToJob().now == req.now
    ensures req.ToJob().cooldownSubject == match OpenPolicy.Who(req)
                                           case None => None
                                           case Some(who) => Some(OpenPolicy.Sentinel(who, req))
  {
    WindowsAre(req.now);
    hide FixedWindowStart;
  }

  lemma FirstIs(st: Store, plan: seq<Charge>)
    ensures FirstAtCap(st, plan, 0) < |plan|
            <==> !forall i :: 0 <= i < |plan| ==> UnderCap(st, plan[i].key, plan[i].cap)
    ensures |plan| == 2 ==> FirstAtCap(st, plan, 0) == if !UnderCap(st, plan[0].key, plan[0].cap) then 0
                                                       else if !UnderCap(st, plan[1].key, plan[1].cap) then 1 else 2
    ensures |plan| == 4 ==> FirstAtCap(st, plan, 0) == if !UnderCap(st, plan[0].key, plan[0].cap) then 0
                                                       else if !UnderCap(st, plan[1].key, plan[1].cap) then 1
                                                       else if !UnderCap(st, plan[2].key, plan[2].cap) then 2
                                                       else if !UnderCap(st, plan[3].key, plan[3].cap) then 3 else 4
  {
    if |plan| == 4 && UnderCap(st, plan[0].key, plan[0].cap) && UnderCap(st, plan[1].key, plan[1].cap) {
      assert FirstAtCap(st, plan, 0) == FirstAtCap(st, plan, 2);
    }
  }

  lemma CooldownIs(st: Store, req: Request, dbNow: int)
    ensures FastPathDenies(st, req.ToJob()) <==> !OpenPolicy.Rested(st, req, req.now)
    ensures CooldownOver(st, req.ToJob(), dbNow) <==> OpenPolicy.Rested(st, req, dbNow)
    ensures !CooldownOver(st, req.ToJob(), dbNow) || FastPathDenies(st, req.ToJob()) ==>
              OpenPolicy.HintIsRight(st, req, Denial(OpenCooldown, Max(1, CooldownHint(st, req.ToJob()))))
    ensures FastPathDenies(st, req.ToJob()) ==> CooldownHint(st, req.ToJob()) >= 1
  {
    PlanIs(req);
  }

  /**
   * The verdict on a request, whatever the table and the two clocks: allowed
   * exactly when no limit stands in the way, and otherwise refused with the
   * first one that does and the time until it may be over.
   */
  lemma DecisionIsThePolicy(st: Store, req: Request, dbNow: int)
    ensures var v := Decide(st, req.ToJob(), dbNow);
            && (v.Allow? <==> OpenPolicy.Admissible(st, req, dbNow))
            && (v.Deny? ==> v.denial.limit == OpenPolicy.Obstacle(st, req) && OpenPolicy.HintIsRight(st, req, v.denial))
  {
    PlanIs(req);
    WindowsAre(req.now);
    CooldownIs(st, req, dbNow);
    FirstIs(st, req.ToJob().plan);
    hide FixedWindowStart, SecondsUntilWindowEnd, FirstAtCap, CooldownOver, FastPathDenies, CooldownHint;
    hide OpenPolicy.Rested, OpenPolicy.LeastSeconds;
  }

  lemma ChargesThePolicy(req: Request, k: Key)
    ensures k in req.ToJob().Keys() <==> k in OpenPolicy.Counters(req)
  {
    PlanIs(req);
    var plan, keys := req.ToJob().plan, req.ToJob().Keys();
    hide FixedWindowStart;
    assert forall i :: 0 <= i < |plan| ==> plan[i].key in keys;
    if |plan| == 4 {
      assert plan[0].key in keys && plan[1].key in keys && plan[2].key in keys && plan[3].key in keys;
    } else {
      assert plan[0].key in keys && plan[1].key in keys;
    }
  }

  // -- The step machine, run alone ---------------------------------------------------

  /** Awaits left before the attempt must be finished. */
  function Remaining(a: Attempt): nat
    requires a.Valid()
  {
    match a.phase
    case FastPath => 2 * |a.job.plan| + 5
    case Charging(next) => 2 * |a.job.plan| + 4 - next
    case Claiming => |a.job.plan| + 3
    case HandingBack(at, _) => |a.consumed| + 2 - at
    case Recheck => 1
    case Admitted(_) => 0
    case Denied(_) => 0
    case Degraded => 0
  }

  /** A statement of one attempt that may prune, and the rows its housekeeping picks. */
  datatype Statement = Take(key: Key) | GiveBack(key: Key) | ClaimSentinel

  type Pick = Statement -> Batch

  function BatchOf(a: Attempt, pick: Pick): Batch
    requires a.Valid()
  {
    match a.phase
    case Charging(next) => pick(Take(a.job.plan[next].key))
    case HandingBack(at, _) => pick(GiveBack(a.consumed[at]))
    case Claiming => pick(ClaimSentinel)
    case _ => NO_BATCH
  }

  lemma AdvanceMakesProgress(st: Store, a: Attempt, dbNow: int, pick: Pick)
    requires a.Valid() && !a.Finished()
    ensures Advance(st, a, dbNow, BatchOf(a, pick)).1.Valid()
    ensures Remaining(Advance(st, a, dbNow, BatchOf(a, pick)).1) < Remaining(a)
  {
    AdvanceValid(st, a, dbNow, BatchOf(a, pick));
  }

  /** Runs the attempt to the end with nothing in between. */
  function RunAlone(st: Store, a: Attempt, dbNow: int, pick: Pick): (r: (Store, Attempt))
    requires a.Valid()
    ensures r.1.Valid() && r.1.Finished() && r.1.job == a.job
    decreases Remaining(a)
  {
    if a.Finished() then (st, a)
    else
      AdvanceMakesProgress(st, a, dbNow, pick);
      var (st', a') := Advance(st, a, dbNow, BatchOf(a, pick));
      RunAlone(st', a', dbNow, pick)
  }

  lemma {:induction false} RunAloneConserves(st: Store, a: Attempt, dbNow: int, pick: Pick, k: Key)
    requires !StaleWindow(k, dbNow) && a.Valid()
    ensures Moves(st, a, RunAlone(st, a, dbNow, pick), k)
    decreases Remaining(a)
  {
    if !a.Finished() {
      AdvanceMakesProgress(st, a, dbNow, pick);
      AdvanceConserves(st, a, dbNow, BatchOf(a, pick), k);
      var (st', a') := Advance(st, a, dbNow, BatchOf(a, pick));
      RunAloneConserves(st', a', dbNow, pick, k);
    }
  }

  /** No consumed counter is of this scope. */
  ghost predicate ScopeFree(consumed: seq<Key>, k: Key) {
    forall i :: 0 <= i < |consumed| ==> consumed[i].scope != k.scope
  }

  /** Nothing but counters of the consumed scopes differs between the two tables. */
  ghost predicate Untouched(before: Store, st: Store, consumed: seq<Key>) {
    && st.lastOpen == before.lastOpen
    && forall k :: ScopeFree(consumed, k) ==>
         (k in st.counts <==> k in before.counts) && Count(st, k) == Count(before, k)
  }

  /** The attempt accounts for one unit of each key in `consumed` and, pruning apart, nothing else changed. */
  ghost predicate Took(before: Store, st: Store, consumed: seq<Key>, dbNow: int) {
    Untouched(before, st, consumed) && Charged(before, st, consumed, dbNow)
  }

  /** The attempt got through the first |consumed| charges of its plan. */
  ghost predicate OnPlan(before: Store, job: Job, st: Store, consumed: seq<Key>, dbNow: int) {
    && Took(before, st, consumed, dbNow)
    && job.Ok() && |consumed| <= |job.plan|
    && (forall j :: 0 <= j < |consumed| ==> consumed[j] == job.plan[j].key)
    && forall j :: 0 <= j < |consumed| ==> UnderCap(before, job.plan[j].key, job.plan[j].cap)
  }

  /** Among the counters that are not up for pruning, exactly the consumed ones went up, by one. */
  ghost predicate Charged(before: Store, st: Store, consumed: seq<Key>, dbNow: int) {
    forall k :: !StaleWindow(k, dbNow) ==> Count(st, k) == Count(before, k) + One(k in consumed)
  }

  /** Every sentinel, and every counter not up for pruning, reads as before (a row handed back to 0 may remain). */
  ghost predicate SameTable(before: Store, st: Store, dbNow: int) {
    st.lastOpen == before.lastOpen && forall k :: !StaleWindow(k, dbNow) ==> Count(st, k) == Count(before, k)
  }

  lemma {:induction false} HandingBackDenies(st: Store, a: Attempt, dbNow: int, pick: Pick)
    requires a.Valid() && (a.phase.HandingBack? || a.phase.Recheck?)
    ensures RunAlone(st, a, dbNow, pick).0.lastOpen == st.lastOpen
    ensures a.phase.HandingBack? && !a.phase.denial.limit.OpenCooldown?
            ==> RunAlone(st, a, dbNow, pick).1.phase == Denied(a.phase.denial)
    ensures a.phase.Recheck? || a.phase.denial.limit.OpenCooldown?
            ==> RunAlone(st, a, dbNow, pick).1.phase == Denied(Denial(OpenCooldown, Max(1, CooldownHint(st, a.job))))
    decreases Remaining(a)
  {
    AdvanceMakesProgress(st, a, dbNow, pick);
    var (st', a') := Advance(st, a, dbNow, BatchOf(a, pick));
    assert CooldownHintSame(st, st', a.job);
    if !a'.Finished() {
      HandingBackDenies(st', a', dbNow, pick);
    }
  }

  predicate CooldownHintSame(st: Store, st': Store, job: Job) {
    job.cooldownSubject.Some? && st.lastOpen == st'.lastOpen ==> CooldownHint(st, job) == CooldownHint(st', job)
  }

  lemma ClaimingDecides(before: Store, st: Store, a: Attempt, dbNow: int, pick: Pick)
    requires a.Valid() && a.phase.Claiming?
    requires st.lastOpen == before.lastOpen
    requires !FastPathDenies(before, a.job)
    requires FirstAtCap(before, a.job.plan, 0) == |a.job.plan|
    ensures Settled(before, a.job, dbNow, RunAlone(st, a, dbNow, pick))
  {
    AdvanceMakesProgress(st, a, dbNow, pick);
    var (st', a') := Advance(st, a, dbNow, BatchOf(a, pick));
    if a'.phase.HandingBack? {
      HandingBackDenies(st', a', dbNow, pick);
      assert CooldownHintSame(before, st', a.job);
    }
  }

  lemma FirstAtCapIs(st: Store, plan: seq<Charge>, i: nat)
    requires i <= |plan|
    requires forall j :: 0 <= j < i ==> UnderCap(st, plan[j].key, plan[j].cap)
    requires i < |plan| ==> !UnderCap(st, plan[i].key, plan[i].cap)
    ensures FirstAtCap(st, plan, 0) == i
  {
  }

  /** A charge meets the counter as it was before the attempt, and leaves the other scopes alone. */
  lemma ChargeMeetsTheTable(before: Store, st: Store, a: Attempt, dbNow: int, batch: Batch)
    requires a.Valid() && a.phase.Charging? && Untouched(before, st, a.consumed)
    ensures var charge := a.job.plan[a.phase.next];
            && (UnderCap(st, charge.key, charge.cap) <==> UnderCap(before, charge.key, charge.cap))
            && (UnderCap(st, charge.key, charge.cap) ==>
                  Untouched(before, OpenLimiter.Bump(st, charge.key, 1, dbNow, batch), a.consumed + [charge.key]))
  {
    var charge := a.job.plan[a.phase.next];
    assert ScopeFree(a.consumed, charge.key);
    BumpUntouched(before, st, a.consumed, charge.key, dbNow, batch);
  }

  lemma BumpUntouched(before: Store, st: Store, consumed: seq<Key>, k: Key, dbNow: int, batch: Batch)
    requires Untouched(before, st, consumed)
    ensures Untouched(before, OpenLimiter.Bump(st, k, 1, dbNow, batch), consumed + [k])
  {
    var st', more := OpenLimiter.Bump(st, k, 1, dbNow, batch), consumed + [k];
    forall x: Key | ScopeFree(more, x)
      ensures (x in st'.counts <==> x in before.counts) && Count(st', x) == Count(before, x)
    {
      assert more[|consumed|] == k;
      assert forall i :: 0 <= i < |consumed| ==> more[i] == consumed[i];
      assert ScopeFree(consumed, x);
    }
  }

  lemma {:induction false} ChargingDecides(before: Store, st: Store, a: Attempt, dbNow: int, pick: Pick)
    requires a.Valid() && a.phase.Charging?
    requires Untouched(before, st, a.consumed)
    requires !FastPathDenies(before, a.job)
    requires forall j :: 0 <= j < a.phase.next ==> UnderCap(before, a.job.plan[j].key, a.job.plan[j].cap)
    ensures Settled(before, a.job, dbNow, RunAlone(st, a, dbNow, pick))
    decreases Remaining(a)
  {
    AdvanceMakesProgress(st, a, dbNow, pick);
    var (st', a') := Advance(st, a, dbNow, BatchOf(a, pick));
    var next := a.phase.next;
    var charge := a.job.plan[next];
    ChargeMeetsTheTable(before, st, a, dbNow, BatchOf(a, pick));
    hide Untouched, UnderCap, InsertRow, OpenLimiter.Bump;
    if !UnderCap(st, charge.key, charge.cap) {
      FirstAtCapIs(before, a.job.plan, next);
      if a'.phase.HandingBack? {
        HandingBackDenies(st', a', dbNow, pick);
      }
    } else if a'.phase.Charging? {
      ChargingDecides(before, st', a', dbNow, pick);
    } else {
      FirstAtCapIs(before, a.job.plan, next + 1);
      UntouchedSentinels(before, st', a'.consumed);
      if a'.phase.Claiming? {
        ClaimingDecides(before, st', a', dbNow, pick);
      }
    }
  }

  lemma UntouchedSentinels(before: Store, st: Store, consumed: seq<Key>)
    requires Untouched(before, st, consumed)
    ensures st.lastOpen == before.lastOpen
  {
  }

  /** What a finished attempt must look like next to the order-free decision. */
  ghost predicate Settled(before: Store, job: Job, dbNow: int, r: (Store, Attempt)) {
    match Decide(before, job, dbNow)
    case Allow => r.1.phase == Admitted(dbNow) && SentinelClaimed(before, job, dbNow, r.0)
    case Deny(d) => r.1.phase == Denied(d) && r.0.lastOpen == before.lastOpen
  }

  ghost predicate SentinelClaimed(before: Store, job: Job, dbNow: int, after: Store) {
    && after.lastOpen.Keys
       <= before.lastOpen.Keys + (if job.cooldownSubject.Some? then {job.cooldownSubject.value} else {})
    && (job.cooldownSubject.Some? ==>
          job.cooldownSubject.value in after.lastOpen && after.lastOpen[job.cooldownSubject.value] == dbNow)
    && (forall x :: x in after.lastOpen && job.cooldownSubject != Some(x) ==>
          x in before.lastOpen && after.lastOpen[x] == before.lastOpen[x])
    && (forall x :: x in before.lastOpen && x !in after.lastOpen ==> Stale(before.lastOpen[x], job.cooldownS, dbNow))
    && (job.cooldownSubject.None? ==> after.lastOpen == before.lastOpen)
  }

  /**
   * Run sequentially, the limiter is the order-free decision: it admits
   * exactly when every check passes on the table it found, adds one to exactly
   * the applicable counters when it admits, and a denial leaves the counters
   * and the sentinels as they were. Windows up for pruning may be forgotten.
   */
  lemma SoloRunRefinesDecision(st: Store, req: Request, dbNow: int, pick: Pick, k: Key)
    ensures Settled(st, req.ToJob(), dbNow, RunAlone(st, Start(req), dbNow, pick))
    ensures !StaleWindow(k, dbNow) ==>
              Count(RunAlone(st, Start(req), dbNow, pick).0, k)
              == Count(st, k) + One(Decide(st, req.ToJob(), dbNow) == Allow && k in req.ToJob().Keys())
  {
    SoloSettles(st, req.ToJob(), dbNow, pick);
    if !StaleWindow(k, dbNow) {
      SoloCounts(st, req.ToJob(), dbNow, pick, k);
    }
  }

  lemma SoloCounts(st: Store, job: Job, dbNow: int, pick: Pick, k: Key)
    requires job.Ok() && !StaleWindow(k, dbNow)
    ensures Count(RunAlone(st, Attempt(job, FastPath, []), dbNow, pick).0, k)
            == Count(st, k) + One(Decide(st, job, dbNow) == Allow && k in job.Keys())
  {
    var a := Attempt(job, FastPath, []);
    SoloSettles(st, job, dbNow, pick);
    RunAloneConserves(st, a, dbNow, pick, k);
    var (_, a') := RunAlone(st, a, dbNow, pick);
    if a'.phase.Admitted? {
      AdmittedHoldsPlan(a', k);
    }
  }

  lemma SoloSettles(st: Store, job: Job, dbNow: int, pick: Pick)
    requires job.Ok()
    ensures Settled(st, job, dbNow, RunAlone(st, Attempt(job, FastPath, []), dbNow, pick))
  {
    var a := Attempt(job, FastPath, []);
    AdvanceMakesProgress(st, a, dbNow, pick);
    if !FastPathDenies(st, job) {
      var a' := a.(phase := Charging(0));
      assert Advance(st, a, dbNow, BatchOf(a, pick)) == (st, a');
      ChargingDecides(st, st, a', dbNow, pick);
    }
  }

  // -- The code itself ---------------------------------------------------------------

  class CounterTable {
    var counts: map<Key, int>
    var lastOpen: map<string, int>

    ghost function Rows(): Store
      reads this
    {
      Store(counts, lastOpen)
    }

    method Bump(k: Key, amount: int, dbNow: int, batch: Batch)
      modifies this
      ensures Rows() == OpenLimiter.Bump(old(Rows()), k, amount, dbNow, batch)
    {
      if k in counts {
        counts := counts[k := counts[k] + amount];
      } else {
        Insert(k, amount, dbNow, batch);
      }
    }

    /** Inserts a row, then deletes a batch of stale windows of the same scope. */
    method Insert(k: Key, count: int, dbNow: int, batch: Batch)
      modifies this`counts
      ensures counts == InsertRow(old(counts), k, count, dbNow, batch)
    {
      counts := counts[k := count];
      counts := map x | x in counts && !(x in batch.windows && x.scope == k.scope && StaleWindow(x, dbNow))
                  :: counts[x];
    }

    method TryBump(k: Key, cap: Option<int>, dbNow: int, batch: Batch) returns (consumed: bool)
      modifies this
      ensures consumed <==> OpenLimiter.TryBump(old(Rows()), k, cap, dbNow, batch).Some?
      ensures Rows() == if consumed then OpenLimiter.TryBump(old(Rows()), k, cap, dbNow, batch).value else old(Rows())
    {
      if cap.Some? && cap.value <= 0 {
        return false; // a cap of 0 closes the limit altogether
      }
      if k in counts {
        if cap.Some? && counts[k] >= cap.value {
          return false;
        }
        counts := counts[k := counts[k] + 1];
      } else {
        Insert(k, 1, dbNow, batch);
      }
      return true;
    }

    method ClaimCooldown(subject: string, cooldownS: int, now: int, batch: set<string>) returns (claimed: bool)
      modifies this
      ensures claimed <==> Claim(old(Rows()), subject, cooldownS, now, batch).Some?
      ensures Rows() == if claimed then Claim(old(Rows()), subject, cooldownS, now, batch).value else old(Rows())
    {
      if subject in lastOpen {
        claimed := cooldownS <= 0 || lastOpen[subject] <= now - cooldownS * 1000;
        if claimed {
          lastOpen := lastOpen[subject := now];
        }
      } else {
        claimed := true;
        lastOpen := lastOpen[subject := now];
        lastOpen := map x | x in lastOpen && (x == subject || x !in batch || !Stale(lastOpen[x], cooldownS, now))
                      :: lastOpen[x];
      }
    }

    /** Takes back one unit of each consumed counter and of no other. */
    method HandBack(consumed: seq<Key>, dbNow: int, pick: Pick)
      requires Distinct(consumed)
      modifies this
      ensures lastOpen == old(lastOpen)
      ensures forall k :: !StaleWindow(k, dbNow) ==> Count(Rows(), k) == Count(old(Rows()), k) - One(k in consumed)
    {
      var i := 0;
      while i < |consumed|
        invariant 0 <= i <= |consumed| && lastOpen == old(lastOpen)
        invariant forall k :: !StaleWindow(k, dbNow) ==>
                    Count(Rows(), k) == Count(old(Rows()), k) - One(k in consumed[..i])
      {
        assert consumed[..i + 1] == consumed[..i] + [consumed[i]];
        assert consumed[i] !in consumed[..i];
        Bump(consumed[i], -1, dbNow, pick(GiveBack(consumed[i])));
        i := i + 1;
      }
      assert consumed[..i] == consumed;
    }

    /** Consumes one charge on top of `consumed`, or denies without touching it. */
    method Consume(ghost before: Store, consumed: seq<Key>, charge: Charge, dbNow: int, pick: Pick) returns (ok: bool)
      requires Took(before, Rows(), consumed, dbNow) && ScopeFree(consumed, charge.key)
      modifies this
      ensures ok <==> UnderCap(before, charge.key, charge.cap)
      ensures Took(before, Rows(), if ok then consumed + [charge.key] else consumed, dbNow)
    {
      ghost var st := Rows();
      ok := TryBump(charge.key, charge.cap, dbNow, pick(Take(charge.key)));
      if ok {
        BumpTook(before, st, consumed, charge.key, dbNow, pick(Take(charge.key)));
      }
    }

    /** Hands everything back: the table is the one the attempt found. */
    method Refuse(ghost before: Store, job: Job, consumed: seq<Key>, limit: Limit, dbNow: int, pick: Pick)
      returns (v: Verdict)
      requires Took(before, Rows(), consumed, dbNow) && Distinct(consumed)
      modifies this
      ensures v == Deny(job.WindowRefusal(limit))
      ensures SameTable(before, Rows(), dbNow)
    {
      HandBack(consumed, dbNow, pick);
      var windowS := if limit.MemberOpensPerDay? || limit.LocationOpensPerDay? then DAY_S else HOUR_S;
      return Deny(Denial(limit, SecondsUntilWindowEnd(job.now, windowS)));
    }

    /** Reads the sentinel only, so as to deny early with the exact hint. */
    method CooldownFastPath(job: Job) returns (denied: bool, v: Verdict)
      ensures denied <==> FastPathDenies(Rows(), job)
      ensures denied ==> v == Deny(Denial(OpenCooldown, CooldownHint(Rows(), job)))
    {
      denied, v := false, Allow;
      var cdSubject := job.cooldownSubject;
      if cdSubject.Some? && job.cooldownS > 0 && cdSubject.value in lastOpen {
        var remaining := CooldownRemainingS(lastOpen[cdSubject.value], job.now, job.cooldownS);
        if remaining > 0 {
          return true, Deny(Denial(OpenCooldown, remaining));
        }
      }
    }

    method ClaimOrRefuse(ghost before: Store, job: Job, consumed: seq<Key>, dbNow: int, pick: Pick) returns (v: Verdict)
      requires Took(before, Rows(), consumed, dbNow) && Distinct(consumed)
      modifies this
      ensures v.Allow? <==> CooldownOver(before, job, dbNow)
      ensures v.Allow? ==> SentinelClaimed(before, job, dbNow, Rows()) && counts == old(counts)
      ensures v.Deny? ==> SameTable(before, Rows(), dbNow) && job.cooldownSubject.Some?
      ensures v.Deny? ==> v == Deny(Denial(OpenCooldown, Max(1, CooldownHint(before, job))))
    {
      var cdSubject := job.cooldownSubject;
      if cdSubject.None? {
        return Allow;
      }
      var claimed := ClaimCooldown(cdSubject.value, job.cooldownS, dbNow, pick(ClaimSentinel).sentinels);
      if claimed {
        return Allow;
      }
      v := Refuse(before, job, consumed, OpenCooldown, dbNow, pick);
      var remaining := if cdSubject.value in lastOpen
                       then CooldownRemainingS(lastOpen[cdSubject.value], job.now, job.cooldownS)
                       else job.cooldownS;
      return Deny(Denial(OpenCooldown, Max(1, remaining)));
    }

    /** Consumes the next charge of the plan, or refuses the attempt. */
    method Charge(ghost before: Store, job: Job, consumed: seq<Key>, charge: Charge, dbNow: int, pick: Pick)
      returns (ok: bool, v: Verdict)
      requires OnPlan(before, job, Rows(), consumed, dbNow)
      requires |consumed| < |job.plan| && charge == job.plan[|consumed|]
      requires !FastPathDenies(before, job)
      modifies this
      ensures ok ==> OnPlan(before, job, Rows(), consumed + [charge.key], dbNow)
      ensures !ok ==> v == Decide(before, job, dbNow) && v.Deny? && SameTable(before, Rows(), dbNow)
    {
      v := Allow;
      ghost var n := |consumed|;
      assert ScopeFree(consumed, charge.key);
      ok := Consume(before, consumed, charge, dbNow, pick);
      if !ok {
        FirstAtCapIs(before, job.plan, n);
        v := Refuse(before, job, consumed, charge.limit, dbNow, pick);
      }
    }

    /** The body of the attempt, given its charges; the member ones are absent when the opener is unknown. */
    method ConsumeAndClaim(job: Job, memberHour: Option<Charge>, accountHour: Charge, memberDay: Option<Charge>,
                           locationDay: Charge, dbNow: int, pick: Pick)
      returns (v: Verdict)
      requires job.Ok() && (memberHour.Some? <==> memberDay.Some?)
      requires job.plan == if memberHour.Some? then [memberHour.value, accountHour, memberDay.value, locationDay]
                           else [accountHour, locationDay]
      modifies this
      ensures v == Decide(old(Rows()), job, dbNow)
      ensures v.Allow? ==> && Charged(old(Rows()), Rows(), job.Keys(), dbNow)
                           && SentinelClaimed(old(Rows()), job, dbNow, Rows())
      ensures v.Deny? ==> SameTable(old(Rows()), Rows(), dbNow)
    {
      hide SentinelClaimed, ScopeFree, CooldownElapsed, FixedWindowStart;
      ghost var before := Rows();
      var consumed: seq<Key> := [];
      var ok;
      ok, v := CooldownFastPath(job);
      if ok { return; }

      // The hourly limits hold for administrators too.
      if memberHour.Some? {
        ok, v := Charge(before, job, consumed, memberHour.value, dbNow, pick);
        if !ok { return; }
        consumed := consumed + [memberHour.value.key];
      }
      ok, v := Charge(before, job, consumed, accountHour, dbNow, pick);
      if !ok { return; }
      consumed := consumed + [accountHour.key];

      // The daily quotas count administrators without capping them.
      if memberDay.Some? {
        ok, v := Charge(before, job, consumed, memberDay.value, dbNow, pick);
        if !ok { return; }
        consumed := consumed + [memberDay.value.key];
      }
      ok, v := Charge(before, job, consumed, locationDay, dbNow, pick);
      if !ok { return; }
      consumed := consumed + [locationDay.key];

      FirstAtCapIs(before, job.plan, |job.plan|);
      assert consumed == job.Keys();
      v := ClaimOrRefuse(before, job, consumed, dbNow, pick);
    }

    /**
     * The whole attempt, in the terms of the policy. It is also the order-free
     * decision on the plan, which the interleaved machine refines.
     */
    method CheckAndConsumeOpenLimits(req: Request, dbNow: int, pick: Pick) returns (v: Verdict)
      modifies this
      ensures v.Allow? <==> OpenPolicy.Admissible(old(Rows()), req, dbNow)
      ensures v.Deny? ==> v.denial.limit == OpenPolicy.Obstacle(old(Rows()), req)
                          && OpenPolicy.HintIsRight(old(Rows()), req, v.denial)
      ensures OpenPolicy.CountersAfter(old(Rows()), req, v.Allow?, dbNow, Rows())
      ensures OpenPolicy.SentinelsAfter(old(Rows()), req, v.Allow?, dbNow, Rows())
      ensures v == Decide(old(Rows()), req.ToJob(), dbNow)
    {
      ghost var before := Rows();
      PlanIs(req);
      DecisionIsThePolicy(before, req, dbNow);
      var known := req.Subject().Some?;
      v := ConsumeAndClaim(req.ToJob(),
        if known then Some(req.MemberHour()) else None, req.AccountHour(),
        if known then Some(req.MemberDay()) else None, req.LocationDay(),
        dbNow, pick);
      EffectIsThePolicy(before, req, v, dbNow, Rows());
    }
  }

  /** What an attempt leaves in the table, in the terms of the policy. */
  lemma EffectIsThePolicy(st: Store, req: Request, v: Verdict, dbNow: int, st': Store)
    requires v.Allow? ==> Charged(st, st', req.ToJob().Keys(), dbNow) && SentinelClaimed(st, req.ToJob(), dbNow, st')
    requires v.Deny? ==> SameTable(st, st', dbNow)
    ensures OpenPolicy.CountersAfter(st, req, v.Allow?, dbNow, st')
    ensures OpenPolicy.SentinelsAfter(st, req, v.Allow?, dbNow, st')
  {
    PlanIs(req);
    hide FixedWindowStart;
    if v.Allow? && OpenPolicy.Who(req).Some? {
      forall x | x in st.lastOpen && x !in st'.lastOpen
        ensures st.lastOpen[x] < dbNow - 86_400_000 && st.lastOpen[x] < dbNow - req.cfg.openCooldownS * 1000
      {
        assert Stale(st.lastOpen[x], req.cfg.openCooldownS, dbNow);
      }
    }
    forall k | OpenPolicy.Kept(k, dbNow)
      ensures Count(st', k) == Count(st, k) + if v.Allow? && k in OpenPolicy.Counters(req) then 1 else 0
    {
      ChargesThePolicy(req, k);
      assert !StaleWindow(k, dbNow);
    }
  }

  lemma BumpTook(before: Store, st: Store, consumed: seq<Key>, k: Key, dbNow: int, batch: Batch)
    requires Took(before, st, consumed, dbNow) && ScopeFree(consumed, k)
    ensures Took(before, OpenLimiter.Bump(st, k, 1, dbNow, batch), consumed + [k], dbNow)
  {
    var st', more := OpenLimiter.Bump(st, k, 1, dbNow, batch), consumed + [k];
    BumpUntouched(before, st, consumed, k, dbNow, batch);
    forall x: Key | !StaleWindow(x, dbNow) ensures Count(st', x) == Count(before, x) + One(x in more) {
      assert x in more <==> x in consumed || x == k;
    }
  }
}
