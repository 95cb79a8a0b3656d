/**
 * The open limiter: what one attempt does, statement by statement, to the
 * shared counters and cooldown sentinels.
 *
 * A Store is the rate_limit_counters table; an absent counter row reads 0.
 * Each SQL helper is one atomic function on the Store. An Attempt is one call
 * of checkAndConsumeOpenLimits, cut at its await points; Advance runs it up
 * to the next one. Instants are milliseconds.
 */
module OpenLimiter {
  import opened Common
  import opened WindowMath

  const DAY_MS := DAY_S * 1000

  datatype Scope = Opens1h | AcctOpens1h | Opens1d | LocOpens1d

  datatype Key = Key(scope: Scope, subject: string, windowStart: int)

  datatype Limit =
    | OpenCooldown
    | MemberOpensPerHour
    | AccountOpensPerHour
    | MemberOpensPerDay
    | LocationOpensPerDay

  datatype Reason = RateLimited | QuotaExceeded

  datatype Denial = Denial(limit: Limit, retryAfterS: int) {
    function Reason(): Reason {
      if limit.MemberOpensPerDay? || limit.LocationOpensPerDay? then QuotaExceeded else RateLimited
    }
  }

  datatype Config = Config(openCooldownS: nat, opensPerHour: nat, accountOpensPerHour: nat)

  datatype Quota = Quota(member: Option<int>, location: Option<int>, isAdmin: bool)

  /** One counter an attempt has to consume, its cap (None is uncapped) and the limit it enforces. */
  datatype Charge = Charge(key: Key, cap: Option<int>, limit: Limit)

  /** The arguments of one attempt together with the configuration rows it read first. */
  datatype Request = Request(
    userId: Option<string>,
    phoneE164: Option<string>,
    accessPointId: string,
    locationId: string,
    accountId: string,
    now: int,
    cfg: Config,
    quota: Quota)
  {
    function Subject(): Option<string> {
      if userId.Some? && userId.value != "" then Some("user:" + userId.value)
      else if phoneE164.Some? && phoneE164.value != "" then Some("phone:" + phoneE164.value)
      else None
    }

    function CooldownSubject(): Option<string> {
      if Subject().Some? then Some(Subject().value + "|ap:" + accessPointId) else None
    }

    function HourStart(): int {
      FixedWindowStart(now, HOUR_S)
    }

    function DayStart(): int {
      FixedWindowStart(now, DAY_S)
    }

    function MemberHour(): Charge
      requires Subject().Some?
    {
      Charge(Key(Opens1h, Subject().value, HourStart()), Some(cfg.opensPerHour), MemberOpensPerHour)
    }

    function AccountHour(): Charge {
      Charge(Key(AcctOpens1h, "acct:" + accountId, HourStart()), Some(cfg.accountOpensPerHour), AccountOpensPerHour)
    }

    function MemberDay(): Charge
      requires Subject().Some?
    {
      Charge(Key(Opens1d, Subject().value + "|loc:" + locationId, DayStart()),
             if quota.isAdmin then None else quota.member, MemberOpensPerDay)
    }

    function LocationDay(): Charge {
      Charge(LocationDayKey(locationId, DayStart()),
             if quota.isAdmin then None else quota.location, LocationOpensPerDay)
    }

    /** What the attempt will do: its charges in order, then the cooldown. */
    function ToJob(): (job: Job)
      ensures job.Ok()
    {
      Job(if Subject().Some? then [MemberHour(), AccountHour(), MemberDay(), LocationDay()]
          else [AccountHour(), LocationDay()],
          CooldownSubject(), cfg.openCooldownS, now)
    }
  }

  /** An attempt once its inputs and configuration are known. */
  datatype Job = Job(plan: seq<Charge>, cooldownSubject: Option<string>, cooldownS: nat, now: int) {
    /** Every charge concerns a counter of a scope of its own and enforces a limit of its own. */
    predicate Ok() {
      && |plan| > 0
      && (forall i, j :: 0 <= i < j < |plan| ==> plan[i].key.scope != plan[j].key.scope)
      && (forall i :: 0 <= i < |plan| ==> !plan[i].limit.OpenCooldown?)
    }

    function Keys(): (ks: seq<Key>)
      ensures |ks| == |plan|
      ensures forall i :: 0 <= i < |plan| ==> ks[i] == plan[i].key
    {
      seq(|plan|, i requires 0 <= i < |plan| => plan[i].key)
    }

    function WindowRefusal(limit: Limit): Denial {
      Denial(limit, SecondsUntilWindowEnd(now,
        if limit.MemberOpensPerDay? || limit.LocationOpensPerDay? then DAY_S else HOUR_S))
    }
  }

  function LocationDayKey(locationId: string, dayStart: int): Key {
    Key(LocOpens1d, "loc:" + locationId, dayStart)
  }

  predicate Distinct(ks: seq<Key>) {
    forall i, j :: 0 <= i < j < |ks| ==> ks[i] != ks[j]
  }

  // -- The counter table ----------------------------------------------------

  datatype Store = Store(counts: map<Key, int>, lastOpen: map<string, int>)

  function Count(st: Store, k: Key): int {
    if k in st.counts then st.counts[k] else 0
  }

  function One(b: bool): int {
    if b then 1 else 0
  }

  /** The rows each housekeeping DELETE happens to pick. */
  datatype Batch = Batch(sentinels: set<string>, windows: set<Key>)

  const NO_BATCH := Batch({}, {})

  /** A counter window that started more than two days ago. */
  predicate StaleWindow(k: Key, dbNow: int) {
    0 < k.windowStart < dbNow - 2 * DAY_MS
  }

  /** A new counter row, and the stale windows of its scope that its insertion deletes. */
  function InsertRow(counts: map<Key, int>, k: Key, count: int, dbNow: int, batch: Batch): map<Key, int> {
    var inserted := counts[k := count];
    map x | x in inserted && !(x in batch.windows && x.scope == k.scope && StaleWindow(x, dbNow)) :: inserted[x]
  }

  /** rate_limit_bump: an upsert that adds `amount`; inserting a row prunes old ones of its scope. */
  function Bump(st: Store, k: Key, amount: int, dbNow: int, batch: Batch): (st': Store)
    ensures st'.lastOpen == st.lastOpen
    ensures forall x :: !StaleWindow(x, dbNow) ==> Count(st', x) == Count(st, x) + (if x == k then amount else 0)
    ensures forall x: Key :: x.scope != k.scope ==>
              (x in st'.counts <==> x in st.counts) && Count(st', x) == Count(st, x)
    ensures forall x :: Count(st', x) == 0 || Count(st', x) == Count(st, x) + (if x == k then amount else 0)
  {
    st.(counts := if k in st.counts then st.counts[k := st.counts[k] + amount]
                  else InsertRow(st.counts, k, amount, dbNow, batch))
  }

  predicate UnderCap(st: Store, k: Key, cap: Option<int>) {
    cap.None? || (cap.value > 0 && (k in st.counts ==> st.counts[k] < cap.value))
  }

  /** rate_limit_try_bump: increment only while the count stays within the cap. */
  function TryBump(st: Store, k: Key, cap: Option<int>, dbNow: int, batch: Batch): (r: Option<Store>)
    ensures r.Some? ==> r.value == Bump(st, k, 1, dbNow, batch)
    ensures r.Some? && cap.Some? ==> Count(r.value, k) <= cap.value
    ensures r.None? <==> cap.Some? && (cap.value <= 0 || (k in st.counts && st.counts[k] >= cap.value))
  {
    if UnderCap(st, k, cap) then Some(Bump(st, k, 1, dbNow, batch)) else None
  }

  /** Inserting a row can make the table forget another counter of its scope exactly when that window is stale. */
  lemma OnlyStaleWindowsAreForgotten(st: Store, k: Key, other: Key, dbNow: int)
    requires k != other && k.scope == other.scope && other !in st.counts && Count(st, k) != 0
    ensures 0 < k.windowStart < dbNow - 172_800_000
            <==> exists batch :: Count(Bump(st, other, 1, dbNow, batch), k) != Count(st, k)
  {
    if StaleWindow(k, dbNow) {
      assert Count(Bump(st, other, 1, dbNow, Batch({}, {k})), k) == 0;
    }
  }

  predicate CooldownElapsed(st: Store, subject: string, cooldownS: int, now: int) {
    cooldownS <= 0 || subject !in st.lastOpen || st.lastOpen[subject] <= now - cooldownS * 1000
  }

  /** A sentinel the insert path of the claim is allowed to prune. */
  predicate Stale(last: int, cooldownS: int, now: int) {
    last < now - Max(cooldownS * 1000, DAY_MS)
  }

  /**
   * rate_limit_claim_cooldown: compare-and-refresh of the sentinel row. A
   * claim that inserts a new row also deletes a bounded batch of stale
   * sentinels; `batch` is whatever batch the DELETE happens to pick.
   */
  function Claim(st: Store, subject: string, cooldownS: int, now: int, batch: set<string>): (r: Option<Store>)
    ensures r.Some? <==> CooldownElapsed(st, subject, cooldownS, now)
    ensures r.Some? ==> r.value.counts == st.counts && subject in r.value.lastOpen && r.value.lastOpen[subject] == now
    ensures r.Some? ==> forall x :: x != subject && x in r.value.lastOpen ==>
                          x in st.lastOpen && r.value.lastOpen[x] == st.lastOpen[x]
    ensures r.Some? ==> forall x :: x in st.lastOpen && x !in r.value.lastOpen ==>
                          subject !in st.lastOpen && Stale(st.lastOpen[x], cooldownS, now)
  {
    if !CooldownElapsed(st, subject, cooldownS, now) then None
    else if subject in st.lastOpen then Some(st.(lastOpen := st.lastOpen[subject := now]))
    else
      var inserted := st.lastOpen[subject := now];
      Some(st.(lastOpen := map x | x in inserted && (x == subject || x !in batch || !Stale(inserted[x], cooldownS, now))
                            :: inserted[x]))
  }

  /** A claim of a new subject can prune another sentinel exactly when that is older than a day and the cooldown. */
  lemma OnlyStaleSentinelsAreForgotten(st: Store, subject: string, other: string, cooldownS: nat, now: int)
    requires subject !in st.lastOpen && other in st.lastOpen
    ensures (exists batch :: other !in Claim(st, subject, cooldownS, now, batch).value.lastOpen)
            <==> st.lastOpen[other] < now - 86_400_000 && st.lastOpen[other] < now - cooldownS * 1000
  {
    if Stale(st.lastOpen[other], cooldownS, now) {
      assert other !in Claim(st, subject, cooldownS, now, {other}).value.lastOpen;
    }
  }

  // -- One attempt ------------------------------------------------------------

  datatype Phase =
    | FastPath                             // about to read the sentinel
    | Charging(next: nat)                  // about to consume Plan()[next]
    | HandingBack(at: nat, denial: Denial) // about to hand back consumed[at]
    | Claiming                             // about to claim the sentinel
    | Recheck                              // claim lost and handed back; about to re-read the sentinel
    | Admitted(openedAt: int)
    | Denied(denial: Denial)
    | Degraded                             // the store failed; rolled back and allowed

  datatype Attempt = Attempt(job: Job, phase: Phase, consumed: seq<Key>) {
    predicate Finished() {
      phase.Admitted? || phase.Denied? || phase.Degraded?
    }

    /** The counter units this attempt accounts for right now. */
    function Held(): seq<Key> {
      match phase
      case FastPath => []
      case Charging(_) => consumed
      case HandingBack(at, _) => if at <= |consumed| then consumed[at..] else []
      case Claiming => consumed
      case Recheck => []
      case Admitted(_) => consumed
      case Denied(_) => []
      case Degraded => []
    }

    /** What the code's own bookkeeping guarantees at each await point. */
    predicate Valid() {
      && job.Ok()
      && |consumed| <= |job.plan|
      && (forall i :: 0 <= i < |consumed| ==> consumed[i] == job.plan[i].key)
      && match phase
         case FastPath => consumed == []
         case Charging(next) => next < |job.plan| && |consumed| == next
         case HandingBack(at, d) => at < |consumed| && (d.limit.OpenCooldown? ==> job.cooldownSubject.Some?)
         case Claiming => |consumed| == |job.plan| && job.cooldownSubject.Some?
         case Recheck => job.cooldownSubject.Some?
         case Admitted(_) => |consumed| == |job.plan|
         case Denied(_) => true
         case Degraded => true
    }
  }

  function Start(req: Request): Attempt {
    Attempt(req.ToJob(), FastPath, [])
  }

  function Refuse(a: Attempt, denial: Denial): Attempt {
    a.(phase := if a.consumed == [] then Denied(denial) else HandingBack(0, denial))
  }

  function CooldownHint(st: Store, job: Job): int
    requires job.cooldownSubject.Some?
  {
    var cd := job.cooldownSubject.value;
    if cd in st.lastOpen then CooldownRemainingS(st.lastOpen[cd], job.now, job.cooldownS) else job.cooldownS
  }

  /** Does the read-only fast path deny? */
  predicate FastPathDenies(st: Store, job: Job) {
    && job.cooldownSubject.Some?
    && job.cooldownS > 0
    && job.cooldownSubject.value in st.lastOpen
    && CooldownHint(st, job) > 0
  }

  /** Runs the attempt to its next await point. `dbNow` is the database's clock. */
  function Advance(st: Store, a: Attempt, dbNow: int, batch: Batch): (r: (Store, Attempt))
    requires a.Valid()
    ensures r.1.job == a.job
  {
    match a.phase
    case FastPath =>
      if FastPathDenies(st, a.job) then (st, Refuse(a, Denial(OpenCooldown, CooldownHint(st, a.job))))
      else (st, a.(phase := Charging(0)))
    case Charging(next) =>
      var charge := a.job.plan[next];
      (match TryBump(st, charge.key, charge.cap, dbNow, batch)
       case None => (st, Refuse(a, a.job.WindowRefusal(charge.limit)))
       case Some(st') =>
         (st', a.(consumed := a.consumed + [charge.key],
                  phase := if next + 1 < |a.job.plan| then Charging(next + 1)
                           else if a.job.cooldownSubject.Some? then Claiming
                           else Admitted(dbNow))))
    case HandingBack(at, denial) =>
      (Bump(st, a.consumed[at], -1, dbNow, batch),
       a.(phase := if at + 1 < |a.consumed| then HandingBack(at + 1, denial)
                   else if denial.limit.OpenCooldown? then Recheck
                   else Denied(denial)))
    case Claiming =>
      (match Claim(st, a.job.cooldownSubject.value, a.job.cooldownS, dbNow, batch.sentinels)
       case None => (st, Refuse(a, Denial(OpenCooldown, 0)))
       case Some(st') => (st', a.(phase := Admitted(dbNow))))
    case Recheck => (st, a.(phase := Denied(Denial(OpenCooldown, Max(1, CooldownHint(st, a.job))))))
    case Admitted(_) => (st, a)
    case Denied(_) => (st, a)
    case Degraded => (st, a)
  }

  function Undo(st: Store, k: Key): Store {
    st.(counts := st.counts[k := Count(st, k) - 1])
  }

  /** Undoes everything the attempt still holds, as rolling back its savepoint does. */
  function Release(st: Store, held: seq<Key>): (st': Store)
    ensures st'.lastOpen == st.lastOpen
    decreases |held|
  {
    if held == [] then st else Release(Undo(st, held[0]), held[1..])
  }

  /** A store error inside the guarded call: roll back, allow, and flag it. */
  function Fail(st: Store, a: Attempt): (Store, Attempt) {
    if a.Finished() then (st, a) else (Release(st, a.Held()), a.(phase := Degraded))
  }

  // -- What one step does to the counters ---------------------------------------

  lemma {:induction false} ReleaseCounts(st: Store, held: seq<Key>, k: Key)
    requires Distinct(held)
    ensures Count(Release(st, held), k) == Count(st, k) - One(k in held)
    decreases |held|
  {
    if held != [] {
      ReleaseCounts(Undo(st, held[0]), held[1..], k);
    }
  }

  lemma HeldIsDistinct(a: Attempt)
    requires a.Valid()
    ensures Distinct(a.Held())
  {
  }

  /** An admitted attempt accounts for exactly the counters of its plan. */
  lemma AdmittedHoldsPlan(a: Attempt, k: Key)
    requires a.Valid() && a.phase.Admitted?
    ensures k in a.Held() <==> k in a.job.Keys()
  {
    assert a.consumed == a.job.Keys();
  }

  lemma AdvanceValid(st: Store, a: Attempt, dbNow: int, batch: Batch)
    requires a.Valid()
    ensures Advance(st, a, dbNow, batch).1.Valid()
  {
  }

  /** The counter moved by exactly the change in what the attempt holds. */
  predicate Moves(st: Store, a: Attempt, r: (Store, Attempt), k: Key) {
    Count(r.0, k) == Count(st, k) - One(k in a.Held()) + One(k in r.1.Held())
  }

  lemma ChargeConserves(st: Store, a: Attempt, dbNow: int, batch: Batch, k: Key)
    requires !StaleWindow(k, dbNow) && a.Valid() && a.phase.Charging?
    ensures Moves(st, a, Advance(st, a, dbNow, batch), k)
  {
    assert a.job.plan[a.phase.next].key !in a.consumed;
    assert a.consumed[0..] == a.consumed;
  }

  lemma HandBackConserves(st: Store, a: Attempt, dbNow: int, batch: Batch, k: Key)
    requires !StaleWindow(k, dbNow) && a.Valid() && a.phase.HandingBack?
    ensures Moves(st, a, Advance(st, a, dbNow, batch), k)
  {
    var at := a.phase.at;
    HeldIsDistinct(a);
    assert a.Held() == [a.consumed[at]] + a.consumed[at + 1..];
    assert a.consumed[at] == a.Held()[0];
    assert forall i :: 0 < i < |a.Held()| ==> a.Held()[i] != a.Held()[0];
    assert a.consumed[at] !in a.consumed[at + 1..];
  }

  /** Every step moves each counter of the last two days by exactly the change in what the attempt holds. */
  lemma AdvanceConserves(st: Store, a: Attempt, dbNow: int, batch: Batch, k: Key)
    requires !StaleWindow(k, dbNow) && a.Valid()
    ensures Moves(st, a, Advance(st, a, dbNow, batch), k)
  {
    match a.phase
    case Charging(_) => ChargeConserves(st, a, dbNow, batch, k);
    case HandingBack(_, _) => HandBackConserves(st, a, dbNow, batch, k);
    case Claiming => assert a.consumed[0..] == a.consumed;
    case _ =>
  }

  lemma FailConserves(st: Store, a: Attempt, k: Key)
    requires a.Valid()
    ensures Fail(st, a).1.Valid() && Moves(st, a, Fail(st, a), k)
  {
    HeldIsDistinct(a);
    if !a.Finished() {
      ReleaseCounts(st, a.Held(), k);
    }
  }
}
