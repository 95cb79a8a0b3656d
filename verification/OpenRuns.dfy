/**
 * Any number of open attempts, interleaved statement by statement over one
 * counter table. A run is a sequence of events from the empty table; an event
 * that is not enabled changes nothing, so theorems about Exec(es) for every
 * es are theorems about every interleaving.
 */
module OpenRuns {
  import opened Common
  import opened WindowMath
  import opened OpenLimiter

  type Id = nat

  datatype Event =
    | Begin(id: Id, req: Request)
    | Run(id: Id, batch: Batch) // the attempt executes up to its next await
    | StoreError(id: Id)              // its next statement fails
    | Tick(now: int)                  // the database clock moves on

  datatype State = State(store: Store, attempts: map<Id, Attempt>, dbNow: int)

  const INIT := State(Store(map[], map[]), map[], 0)

  predicate Enabled(s: State, e: Event) {
    match e
    case Begin(id, _) => id !in s.attempts
    case Run(id, _) => id in s.attempts && s.attempts[id].Valid()
    case StoreError(id) => id in s.attempts
    case Tick(now) => s.dbNow <= now
  }

  function Next(s: State, e: Event): State {
    if !Enabled(s, e) then s else
    match e
    case Begin(id, req) => s.(attempts := s.attempts[id := Start(req)])
    case Run(id, batch) =>
      var (st, a) := Advance(s.store, s.attempts[id], s.dbNow, batch);
      s.(store := st, attempts := s.attempts[id := a])
    case StoreError(id) =>
      var (st, a) := Fail(s.store, s.attempts[id]);
      s.(store := st, attempts := s.attempts[id := a])
    case Tick(now) => s.(dbNow := now)
  }

  function Exec(es: seq<Event>): State {
    if es == [] then INIT else Next(Exec(es[..|es| - 1]), es[|es| - 1])
  }

  // -- Conservation ---------------------------------------------------------------

  function AdmittedUsing(s: State, k: Key): set<Id> {
    set id | id in s.attempts && s.attempts[id].phase.Admitted? && k in s.attempts[id].Held()
  }

  function InFlightHolding(s: State, k: Key): set<Id> {
    set id | id in s.attempts && !s.attempts[id].Finished() && k in s.attempts[id].Held()
  }

  function Holders(s: State, k: Key): set<Id> {
    set id | id in s.attempts && k in s.attempts[id].Held()
  }

  /** Windows of the last two days count exactly; the table may have pruned older ones. */
  ghost predicate Conserved(s: State) {
    && (forall id :: id in s.attempts ==> s.attempts[id].Valid())
    && (forall k :: !StaleWindow(k, s.dbNow) ==> Count(s.store, k) == |Holders(s, k)|)
  }

  /** Updating one attempt changes only whether that attempt is a holder. */
  lemma HoldersUpdate(s: State, s': State, id: Id, k: Key)
    requires id in s.attempts && id in s'.attempts && s'.attempts == s.attempts[id := s'.attempts[id]]
    ensures Holders(s', k) == if k in s'.attempts[id].Held() then Holders(s, k) + {id} else Holders(s, k) - {id}
    ensures id in Holders(s, k) <==> k in s.attempts[id].Held()
  {
  }

  /** Exactly one attempt moved, and each counter moved with what it holds. */
  ghost predicate Moved(s: State, s': State, id: Id) {
    && id in s.attempts && id in s'.attempts
    && s'.attempts == s.attempts[id := s'.attempts[id]]
    && s'.attempts[id].job == s.attempts[id].job
    && (s.attempts[id].Finished() ==> s'.attempts[id] == s.attempts[id])
    && s'.dbNow == s.dbNow
    && forall k :: !StaleWindow(k, s.dbNow) ==> Moves(s.store, s.attempts[id], (s'.store, s'.attempts[id]), k)
  }

  lemma NextMovesOne(s: State, e: Event)
    requires Conserved(s) && (e.Run? || e.StoreError?) && Enabled(s, e)
    ensures Moved(s, Next(s, e), e.id)
    ensures Next(s, e).attempts[e.id].Valid()
  {
    if e.Run? { AdvanceValid(s.store, s.attempts[e.id], s.dbNow, e.batch); }
    else { FailConserves(s.store, s.attempts[e.id], Key(Opens1h, "", 0)); }
    var s' := Next(s, e);
    forall k | !StaleWindow(k, s.dbNow) ensures Moves(s.store, s.attempts[e.id], (s'.store, s'.attempts[e.id]), k) {
      if e.Run? {
        AdvanceConserves(s.store, s.attempts[e.id], s.dbNow, e.batch, k);
      } else {
        FailConserves(s.store, s.attempts[e.id], k);
      }
    }
  }

  lemma MovedConserves(s: State, s': State, id: Id)
    requires Conserved(s) && Moved(s, s', id) && s'.attempts[id].Valid()
    ensures Conserved(s')
  {
    forall k | !StaleWindow(k, s.dbNow) ensures Count(s'.store, k) == |Holders(s', k)| {
      HoldersUpdate(s, s', id, k);
      assert Moves(s.store, s.attempts[id], (s'.store, s'.attempts[id]), k);
    }
  }

  lemma NextConserves(s: State, e: Event)
    requires Conserved(s)
    ensures Conserved(Next(s, e))
  {
    var s' := Next(s, e);
    if Enabled(s, e) && (e.Run? || e.StoreError?) {
      NextMovesOne(s, e);
      MovedConserves(s, s', e.id);
    } else {
      forall k | !StaleWindow(k, s'.dbNow) ensures Count(s'.store, k) == |Holders(s', k)| {
        assert Holders(s', k) == Holders(s, k);
      }
    }
  }

  lemma {:induction false} RunConserves(es: seq<Event>)
    ensures Conserved(Exec(es))
  {
    if es == [] {
      forall k ensures Count(INIT.store, k) == |Holders(INIT, k)| {
        assert Holders(INIT, k) == {};
      }
    } else {
      RunConserves(es[..|es| - 1]);
      NextConserves(Exec(es[..|es| - 1]), es[|es| - 1]);
    }
  }

  /**
   * In every interleaving each counter of the last two days is exactly the
   * admitted attempts that used it plus the attempts in flight that still hold
   * it. Denied and degraded attempts account for nothing.
   */
  lemma CountersCountOpens(es: seq<Event>, k: Key)
    requires !StaleWindow(k, Exec(es).dbNow)
    ensures Count(Exec(es).store, k) == |AdmittedUsing(Exec(es), k)| + |InFlightHolding(Exec(es), k)|
  {
    RunConserves(es);
    HoldersSplit(Exec(es), k);
  }

  lemma HoldersSplit(s: State, k: Key)
    ensures |Holders(s, k)| == |AdmittedUsing(s, k)| + |InFlightHolding(s, k)|
  {
    assert Holders(s, k) == AdmittedUsing(s, k) + InFlightHolding(s, k);
    assert AdmittedUsing(s, k) !! InFlightHolding(s, k);
    hide *;
    UnionSize(Holders(s, k), AdmittedUsing(s, k), InFlightHolding(s, k));
  }

  /** The successful opens whose request charges k. */
  function OpensCharging(s: State, k: Key): set<Id> {
    set id | id in s.attempts && s.attempts[id].phase.Admitted? && k in s.attempts[id].job.Keys()
  }

  /** With nothing in flight, a counter is the number of successful opens that charge it. */
  lemma QuiescentCountersAreOpens(es: seq<Event>, k: Key)
    requires !StaleWindow(k, Exec(es).dbNow)
    requires forall id :: id in Exec(es).attempts ==> Exec(es).attempts[id].Finished()
    ensures Count(Exec(es).store, k) == |OpensCharging(Exec(es), k)|
  {
    RunConserves(es);
    var s := Exec(es);
    assert Holders(s, k) == OpensCharging(s, k) by {
      forall id | id in s.attempts
        ensures k in s.attempts[id].Held() <==> s.attempts[id].phase.Admitted? && k in s.attempts[id].job.Keys()
      {
        assert s.attempts[id].Finished();
        if s.attempts[id].phase.Admitted? { AdmittedHoldsPlan(s.attempts[id], k); }
      }
    }
  }

  /** Whatever an attempt still has to hand back is there to be handed back, and no counter is ever negative. */
  lemma HandBackStaysNonNegative(es: seq<Event>, id: Id, k: Key)
    requires !StaleWindow(k, Exec(es).dbNow)
    ensures id in Exec(es).attempts && k in Exec(es).attempts[id].Held() ==> Count(Exec(es).store, k) >= 1
    ensures Count(Exec(es).store, k) >= 0
  {
    RunConserves(es);
    assert id in Exec(es).attempts && k in Exec(es).attempts[id].Held() ==> id in Holders(Exec(es), k);
  }

  // -- A window that is forgotten ---------------------------------------------------------

  // Two opens of a caller without a name, the second 49 hours later.

  const FIRST := Request(None, None, "ap", "loc", "acct", 3_600_000, Config(0, 5, 5), Quota(None, None, false))
  const SECOND := FIRST.(now := 180_000_000)

  const OLD_HOUR := Key(AcctOpens1h, "acct:acct", 3_600_000)
  const OLD_DAY := Key(LocOpens1d, "loc:loc", 0)

  const NEW_HOUR := Key(AcctOpens1h, "acct:acct", 180_000_000)

  /** The first open at one of its await points, on its own. */
  function Alone(phase: Phase, consumed: seq<Key>, counts: map<Key, int>): State {
    State(Store(counts, map[]), map[0 := Attempt(FIRST.ToJob(), phase, consumed)], 3_600_000)
  }

  const OPENED_ONCE := Alone(Admitted(3_600_000), [OLD_HOUR, OLD_DAY], map[OLD_HOUR := 1, OLD_DAY := 1])

  lemma ThenNext(es: seq<Event>, e: Event)
    ensures Exec(es + [e]) == Next(Exec(es), e)
  {
    assert (es + [e])[..|es + [e]| - 1] == es;
  }

  lemma Plans()
    ensures var job := FIRST.ToJob();
            && job.plan == [Charge(OLD_HOUR, Some(5), AccountOpensPerHour), Charge(OLD_DAY, None, LocationOpensPerDay)]
            && job.cooldownSubject == None
    ensures SECOND.ToJob().plan[0] == Charge(NEW_HOUR, Some(5), AccountOpensPerHour)
    ensures SECOND.ToJob().cooldownSubject == None
  {
    WindowStartUnique(3_600_000, HOUR_S, 1);
    WindowStartUnique(3_600_000, DAY_S, 0);
    WindowStartUnique(180_000_000, HOUR_S, 50);
    assert "acct:" + "acct" == "acct:acct";
    assert "loc:" + "loc" == "loc:loc";
  }

  lemma FirstStarts()
    ensures Next(Next(INIT, Tick(3_600_000)), Begin(0, FIRST)) == Alone(FastPath, [], map[])
  {
  }

  lemma AloneSteps(phase: Phase, consumed: seq<Key>, counts: map<Key, int>, phase': Phase, consumed': seq<Key>,
                   counts': map<Key, int>)
    requires var a := Attempt(FIRST.ToJob(), phase, consumed);
             a.Valid() && Advance(Store(counts, map[]), a, 3_600_000, NO_BATCH)
                          == (Store(counts', map[]), a.(phase := phase', consumed := consumed'))
    ensures Next(Alone(phase, consumed, counts), Run(0, NO_BATCH)) == Alone(phase', consumed', counts')
  {
    hide Advance, FIRST;
  }

  /** A first charge inserts its row; with no batch to prune that is all. */
  lemma Charges(job: Job, next: nat, consumed: seq<Key>, counts: map<Key, int>)
    requires next < |job.plan| && job.cooldownSubject == None
    requires job.plan[next].key !in counts && (job.plan[next].cap.Some? ==> job.plan[next].cap.value > 0)
    requires Attempt(job, Charging(next), consumed).Valid()
    ensures var k := job.plan[next].key;
            Advance(Store(counts, map[]), Attempt(job, Charging(next), consumed), 3_600_000, NO_BATCH)
            == (Store(counts[k := 1], map[]),
                Attempt(job, if next + 1 < |job.plan| then Charging(next + 1) else Admitted(3_600_000), consumed + [k]))
  {
    assert InsertRow(counts, job.plan[next].key, 1, 3_600_000, NO_BATCH) == counts[job.plan[next].key := 1];
  }

  lemma FirstCharges()
    ensures Next(Alone(FastPath, [], map[]), Run(0, NO_BATCH)) == Alone(Charging(0), [], map[])
    ensures Next(Alone(Charging(0), [], map[]), Run(0, NO_BATCH))
            == Alone(Charging(1), [OLD_HOUR], map[OLD_HOUR := 1])
    ensures Next(Alone(Charging(1), [OLD_HOUR], map[OLD_HOUR := 1]), Run(0, NO_BATCH)) == OPENED_ONCE
  {
    Plans();
    var job := FIRST.ToJob();
    assert [] + [OLD_HOUR] == [OLD_HOUR] && [OLD_HOUR] + [OLD_DAY] == [OLD_HOUR, OLD_DAY];
    assert map[OLD_HOUR := 1][OLD_DAY := 1] == map[OLD_HOUR := 1, OLD_DAY := 1];
    AloneSteps(FastPath, [], map[], Charging(0), [], map[]);
    hide Next, Alone, FIRST, Advance;
    Charges(job, 0, [], map[]);
    Charges(job, 1, [OLD_HOUR], map[OLD_HOUR := 1]);
    AloneSteps(Charging(0), [], map[], Charging(1), [OLD_HOUR], map[OLD_HOUR := 1]);
    AloneSteps(Charging(1), [OLD_HOUR], map[OLD_HOUR := 1],
               Admitted(3_600_000), [OLD_HOUR, OLD_DAY], map[OLD_HOUR := 1, OLD_DAY := 1]);
  }

  lemma OneOpenRuns() returns (es: seq<Event>)
    ensures Exec(es) == OPENED_ONCE
  {
    FirstStarts();
    FirstCharges();
    ThenNext([], Tick(3_600_000));
    ThenNext([] + [Tick(3_600_000)], Begin(0, FIRST));
    hide Alone, Next;
    var run := Run(0, NO_BATCH);
    var e1 := [] + [Tick(3_600_000)] + [Begin(0, FIRST)];
    ThenNext(e1, run);
    ThenNext(e1 + [run], run);
    ThenNext(e1 + [run] + [run], run);
    es := e1 + [run] + [run] + [run];
  }

  /** The second open charges its own hour, and the row it inserts drops the first one's. */
  lemma SecondForgets(s: State)
    requires s == Next(Next(OPENED_ONCE, Tick(180_000_000)), Begin(1, SECOND))
    ensures var s' := Next(Next(s, Run(1, NO_BATCH)), Run(1, Batch({}, {OLD_HOUR})));
            && s'.dbNow == 180_000_000 && Count(s'.store, OLD_HOUR) == 0
            && 0 in s'.attempts && s'.attempts[0] == OPENED_ONCE.attempts[0]
  {
    Plans();
    var a := Start(SECOND);
    assert s.attempts[1] == a;
    AdvanceValid(s.store, a, s.dbNow, NO_BATCH);
    hide SECOND, FIRST;
  }

  /** There is a run after which a stale window reads 0 although an open was admitted in it. */
  lemma StaleWindowUndercounts()
    ensures exists es :: StaleWindow(OLD_HOUR, Exec(es).dbNow)
                         && Count(Exec(es).store, OLD_HOUR) == 0 && 0 in AdmittedUsing(Exec(es), OLD_HOUR)
  {
    var es := OneOpenRuns();
    var more := [Tick(180_000_000), Begin(1, SECOND), Run(1, NO_BATCH), Run(1, Batch({}, {OLD_HOUR}))];
    SecondForgets(Next(Next(OPENED_ONCE, more[0]), more[1]));
    var all := FourMore(es, more);
    hide Exec, Next, OPENED_ONCE;
    ReadsAsForgotten(all);
  }

  lemma FourMore(es: seq<Event>, more: seq<Event>) returns (all: seq<Event>)
    requires |more| == 4
    ensures Exec(all) == Next(Next(Next(Next(Exec(es), more[0]), more[1]), more[2]), more[3])
  {
    hide Next;
    ThenNext(es, more[0]);
    ThenNext(es + [more[0]], more[1]);
    ThenNext(es + [more[0]] + [more[1]], more[2]);
    ThenNext(es + [more[0]] + [more[1]] + [more[2]], more[3]);
    all := es + [more[0]] + [more[1]] + [more[2]] + [more[3]];
  }

  lemma ReadsAsForgotten(es: seq<Event>)
    requires var s := Exec(es); s.dbNow == 180_000_000 && Count(s.store, OLD_HOUR) == 0
    requires 0 in Exec(es).attempts && Exec(es).attempts[0] == OPENED_ONCE.attempts[0]
    ensures StaleWindow(OLD_HOUR, Exec(es).dbNow)
    ensures Count(Exec(es).store, OLD_HOUR) == 0 && 0 in AdmittedUsing(Exec(es), OLD_HOUR)
  {
    hide Exec;
  }

  // -- Caps ---------------------------------------------------------------------------

  /** Every attempt that charges k does so under a cap of at most c: none of them is exempt. */
  ghost predicate CappedBy(s: State, k: Key, c: nat) {
    forall id, i :: id in s.attempts && 0 <= i < |s.attempts[id].job.plan| && s.attempts[id].job.plan[i].key == k ==>
      var cap := s.attempts[id].job.plan[i].cap; cap.Some? && cap.value <= c
  }

  /** Attempts are never forgotten and never change what they asked for. */
  lemma JobsPersist(s: State, e: Event, id: Id)
    requires id in s.attempts
    ensures id in Next(s, e).attempts && Next(s, e).attempts[id].job == s.attempts[id].job
  {
  }

  /** A step adds to a counter only by a charge under its cap; everything else lowers it, or forgets it. */
  lemma NextRespectsCap(s: State, e: Event, k: Key, c: nat)
    requires (forall id :: id in s.attempts ==> s.attempts[id].Valid())
    requires CappedBy(s, k, c) && Count(s.store, k) <= c
    ensures Count(Next(s, e).store, k) <= c
  {
    if e.Run? && Enabled(s, e) {
      var a := s.attempts[e.id];
      if a.phase.Charging? && a.job.plan[a.phase.next].key == k {
        assert a.job.plan[a.phase.next].cap.Some? && a.job.plan[a.phase.next].cap.value <= c;
      }
    } else if e.StoreError? && Enabled(s, e) {
      FailConserves(s.store, s.attempts[e.id], k);
    }
  }

  /** However many opens race, in any interleaving, a capped counter and the opens it admits stay within the cap. */
  lemma {:induction false} CapsAreExact(es: seq<Event>, k: Key, c: nat)
    requires CappedBy(Exec(es), k, c)
    ensures Count(Exec(es).store, k) <= c
    ensures !StaleWindow(k, Exec(es).dbNow) ==> |AdmittedUsing(Exec(es), k)| <= c
  {
    if es != [] {
      var prefix, last := es[..|es| - 1], es[|es| - 1];
      forall id | id in Exec(prefix).attempts
        ensures id in Exec(es).attempts && Exec(es).attempts[id].job == Exec(prefix).attempts[id].job
      {
        JobsPersist(Exec(prefix), last, id);
      }
      CapsAreExact(prefix, k, c);
      RunConserves(prefix);
      NextRespectsCap(Exec(prefix), last, k, c);
    }
    if !StaleWindow(k, Exec(es).dbNow) {
      CountersCountOpens(es, k);
    }
  }

  // -- Cooldown ---------------------------------------------------------------------

  ghost predicate ConstantCooldown(s: State, c: nat) {
    forall id :: id in s.attempts ==> s.attempts[id].job.cooldownS == c
  }

  predicate OpenedBy(s: State, id: Id, subject: string) {
    id in s.attempts && s.attempts[id].phase.Admitted? && s.attempts[id].job.cooldownSubject == Some(subject)
  }

  /** When each admitted attempt of a cooldown subject opened. */
  function OpenTimes(s: State, subject: string): map<Id, int> {
    map id | id in s.attempts && OpenedBy(s, id, subject) :: s.attempts[id].phase.openedAt
  }

  function Sentinel(s: State, subject: string): Option<int> {
    SentinelIn(s.store, subject)
  }

  predicate Apart(a: int, b: int, c: int) {
    a + c * 1000 <= b || b + c * 1000 <= a
  }

  /**
   * The sentinel is never older than any open it covers, a pruned sentinel
   * belonged to an open whose cooldown is over, and opens keep their distance.
   */
  ghost predicate Spaced(times: map<Id, int>, sentinel: Option<int>, now: int, c: nat) {
    && (sentinel.Some? ==> sentinel.value <= now)
    && (forall i :: i in times ==> times[i] <= now && Covered(times[i], sentinel, now, c))
    && (forall i, j :: i in times && j in times && i != j ==> Apart(times[i], times[j], c))
  }

  predicate Covered(openedAt: int, sentinel: Option<int>, now: int, c: int) {
    if sentinel.Some? then openedAt <= sentinel.value else openedAt + c * 1000 <= now
  }

  /** The sentinel stays, or is pruned long after its cooldown; nothing new is opened. */
  lemma PruningKeepsSpacing(times: map<Id, int>, before: Option<int>, after: Option<int>, now: int, later: int, c: nat)
    requires Spaced(times, before, now, c) && now <= later
    requires after == before || (before.Some? && after.None? && Stale(before.value, c, now))
    ensures Spaced(times, after, later, c)
  {
    forall i | i in times ensures Covered(times[i], after, later, c) {
      assert Covered(times[i], before, now, c);
    }
  }

  /** A won claim opens at least one cooldown after everything before it. */
  lemma ClaimingKeepsSpacing(times: map<Id, int>, sentinel: Option<int>, now: int, c: nat, id: Id)
    requires Spaced(times, sentinel, now, c) && id !in times
    requires c > 0 && sentinel.Some? ==> sentinel.value <= now - c * 1000
    ensures Spaced(times[id := now], Some(now), now, c)
  {
    forall i | i in times ensures Apart(times[i], now, c) {
      assert Covered(times[i], sentinel, now, c);
    }
  }

  /** Only a claim touches the sentinels, and only a claim admits an attempt that has one. */
  lemma AdvanceLeavesSentinels(st: Store, a: Attempt, dbNow: int, batch: Batch)
    requires a.Valid() && !a.phase.Claiming?
    ensures Advance(st, a, dbNow, batch).0.lastOpen == st.lastOpen
    ensures Advance(st, a, dbNow, batch).1.phase.Admitted? && !a.phase.Admitted? ==> a.job.cooldownSubject.None?
    ensures a.phase.Admitted? ==> Advance(st, a, dbNow, batch) == (st, a)
  {
  }

  lemma QuietStepOpensNothing(s: State, e: Event, subject: string)
    requires Conserved(s) && !(e.Run? && Enabled(s, e) && s.attempts[e.id].phase.Claiming?)
    ensures OpenTimes(Next(s, e), subject) == OpenTimes(s, subject)
    ensures Sentinel(Next(s, e), subject) == Sentinel(s, subject)
    ensures s.dbNow <= Next(s, e).dbNow
  {
    var s' := Next(s, e);
    if Enabled(s, e) && (e.Run? || e.StoreError?) {
      var a, a' := s.attempts[e.id], s'.attempts[e.id];
      if e.Run? {
        AdvanceLeavesSentinels(s.store, a, s.dbNow, e.batch);
      }
      SameOpens(s, s', e.id, subject);
    }
  }

  lemma SameOpens(s: State, s': State, id: Id, subject: string)
    requires id in s.attempts && id in s'.attempts && s'.attempts == s.attempts[id := s'.attempts[id]]
    requires s'.attempts[id] == s.attempts[id] || (!OpenedBy(s, id, subject) && !OpenedBy(s', id, subject))
    ensures OpenTimes(s', subject) == OpenTimes(s, subject)
  {
  }

  lemma ClaimStep(s: State, id: Id, batch: Batch, subject: string)
    requires Conserved(s) && id in s.attempts && s.attempts[id].phase.Claiming?
    ensures var s' := Next(s, Run(id, batch));
            var c := s.attempts[id].job.cooldownS;
            var mine := s.attempts[id].job.cooldownSubject == Some(subject);
            && s'.dbNow == s.dbNow
            && id !in OpenTimes(s, subject)
            && if mine && s'.attempts[id].phase.Admitted? then
                 && CooldownElapsed(s.store, subject, c, s.dbNow)
                 && OpenTimes(s', subject) == OpenTimes(s, subject)[id := s.dbNow]
                 && Sentinel(s', subject) == Some(s.dbNow)
               else
                 && OpenTimes(s', subject) == OpenTimes(s, subject)
                 && (Sentinel(s', subject) == Sentinel(s, subject)
                     || (Sentinel(s, subject).Some? && Sentinel(s', subject).None?
                         && Stale(Sentinel(s, subject).value, c, s.dbNow)))
  {
    var s' := Next(s, Run(id, batch));
    var a := s.attempts[id];
    ClaimAdvances(s.store, a, s.dbNow, batch, subject);
    hide Advance, Claim, CooldownElapsed, Conserved;
    var (st, a') := Advance(s.store, a, s.dbNow, batch);
    assert s'.store == st && s'.attempts == s.attempts[id := a'] && s'.dbNow == s.dbNow;
    if a.job.cooldownSubject == Some(subject) && a'.phase.Admitted? {
      assert OpenTimes(s', subject) == OpenTimes(s, subject)[id := s.dbNow];
    } else {
      SameOpens(s, s', id, subject);
    }
  }

  function SentinelIn(st: Store, subject: string): Option<int> {
    if subject in st.lastOpen then Some(st.lastOpen[subject]) else None
  }

  /** What a claim does to one subject: opens it when it is its own and the cooldown is over, else at most prunes it. */
  lemma ClaimAdvances(st: Store, a: Attempt, now: int, batch: Batch, subject: string)
    requires a.Valid() && a.phase.Claiming?
    ensures var (st', a') := Advance(st, a, now, batch);
            var before, after := SentinelIn(st, subject), SentinelIn(st', subject);
            && a'.job == a.job
            && if a.job.cooldownSubject == Some(subject) && a'.phase.Admitted? then
                 CooldownElapsed(st, subject, a.job.cooldownS, now) && a'.phase == Admitted(now) && after == Some(now)
               else
                 after == before || (before.Some? && after.None? && Stale(before.value, a.job.cooldownS, now))
  {
  }

  ghost predicate SubjectSpaced(s: State, subject: string, c: nat) {
    Spaced(OpenTimes(s, subject), Sentinel(s, subject), s.dbNow, c)
  }

  lemma NextKeepsSpacing(s: State, e: Event, subject: string, c: nat)
    requires Conserved(s) && ConstantCooldown(s, c) && SubjectSpaced(s, subject, c)
    ensures SubjectSpaced(Next(s, e), subject, c)
  {
    var s' := Next(s, e);
    var times, sentinel := OpenTimes(s, subject), Sentinel(s, subject);
    if e.Run? && Enabled(s, e) && s.attempts[e.id].phase.Claiming? {
      ClaimStep(s, e.id, e.batch, subject);
      if OpenTimes(s', subject) == times {
        PruningKeepsSpacing(times, sentinel, Sentinel(s', subject), s.dbNow, s'.dbNow, c);
      } else {
        ClaimingKeepsSpacing(times, sentinel, s.dbNow, c, e.id);
      }
    } else {
      QuietStepOpensNothing(s, e, subject);
      PruningKeepsSpacing(times, sentinel, sentinel, s.dbNow, s'.dbNow, c);
    }
  }

  lemma {:induction false} RunKeepsSpacing(es: seq<Event>, subject: string, c: nat)
    requires ConstantCooldown(Exec(es), c)
    ensures SubjectSpaced(Exec(es), subject, c)
  {
    if es != [] {
      var prefix, last := es[..|es| - 1], es[|es| - 1];
      forall id | id in Exec(prefix).attempts ensures Exec(prefix).attempts[id].job.cooldownS == c {
        JobsPersist(Exec(prefix), last, id);
      }
      RunKeepsSpacing(prefix, subject, c);
      RunConserves(prefix);
      NextKeepsSpacing(Exec(prefix), last, subject, c);
    }
  }

  /**
   * With cooldown c, two opens admitted for the same member and access point
   * are at least c seconds apart, in every interleaving and whatever sentinels
   * were pruned in between.
   */
  lemma OpensAreSpaced(es: seq<Event>, c: nat, i: Id, j: Id, subject: string)
    requires ConstantCooldown(Exec(es), c)
    requires OpenedBy(Exec(es), i, subject) && OpenedBy(Exec(es), j, subject) && i != j
    ensures Apart(Exec(es).attempts[i].phase.openedAt, Exec(es).attempts[j].phase.openedAt, c)
  {
    RunKeepsSpacing(es, subject, c);
    var times := OpenTimes(Exec(es), subject);
    assert i in times && j in times;
  }
}
