/**
 * The choke point every gate command passes: authorisation gates, the open
 * limiter, and one audit row per call. Calls interleave statement by
 * statement through the limiter's machine.
 */
module AccessLog {
  import opened Common
  import opened WindowMath
  import opened OpenLimiter
  import OpenRuns
  import OpenDecision
  import OpenPolicy

  type Id = OpenRuns.Id

  datatype Command = Open | Close

  datatype AuditError = AccountSuspended | UserDisabled | RateLimited | QuotaExceeded | RateLimitCheckFailed

  datatype Verdict = Allowed | Refused(reason: AuditError, retryAfterS: int)

  datatype Args = Args(userId: Option<string>, accessPointId: string, command: Command, phoneE164: Option<string>)

  /** The joined access point, location and account row. */
  datatype Site = Site(locationId: string, accountId: string, suspended: bool)

  datatype Row = Row(call: Id, locationId: string, day: int, command: Command, success: bool, error: Option<AuditError>)

  /** What a call reads besides the counters. */
  datatype Context = Context(site: Option<Site>, userStatus: Option<string>, cfg: Config, quota: Quota, now: int)

  function RequestFor(args: Args, site: Site, ctx: Context): Request {
    Request(args.userId, args.phoneE164, args.accessPointId, site.locationId, site.accountId,
            ctx.now, ctx.cfg, ctx.quota)
  }

  function RowFor(id: Id, args: Args, site: Site, ctx: Context, success: bool, error: Option<AuditError>): Row {
    Row(id, site.locationId, FixedWindowStart(ctx.now, DAY_S), args.command, success, error)
  }

  predicate NamedUser(args: Args) {
    args.userId.Some? && args.userId.value != ""
  }

  /** The refusal decided before the limiter is consulted, if any. */
  function GateRefusal(args: Args, site: Site, ctx: Context): Option<AuditError> {
    if args.command.Open? && site.suspended then Some(AccountSuspended)
    else if args.command.Open? && NamedUser(args) && ctx.userStatus != Some("active") then Some(UserDisabled)
    else None
  }

  function ReasonError(d: Denial): AuditError {
    if d.Reason().RateLimited? then AuditError.RateLimited else AuditError.QuotaExceeded
  }

  // -- The interleaved machine ----------------------------------------------------

  datatype Call =
    | NotFound                                            // threw before writing anything
    | Limiting(args: Args, site: Site, ctx: Context)      // inside the guarded limiter
    | Done(args: Args, verdict: Verdict)

  datatype Event =
    | Arrive(id: Id, args: Args, ctx: Context)
    | Limiter(e: OpenRuns.Event)
    | Audit(id: Id)

  datatype State = State(opens: OpenRuns.State, calls: map<Id, Call>, rows: seq<Row>)

  const INIT := State(OpenRuns.INIT, map[], [])

  function Finish(s: State, id: Id, args: Args, verdict: Verdict, row: Row): State {
    s.(calls := s.calls[id := Done(args, verdict)], rows := s.rows + [row])
  }

  function Next(s: State, e: Event): State {
    match e
    case Arrive(id, args, ctx) =>
      if id in s.calls || id in s.opens.attempts then s
      else if ctx.site.None? then s.(calls := s.calls[id := NotFound])
      else
        var site := ctx.site.value;
        var refusal := GateRefusal(args, site, ctx);
        if refusal.Some? then
          Finish(s, id, args, Refused(refusal.value, 0), RowFor(id, args, site, ctx, false, refusal))
        else if args.command.Close? then Finish(s, id, args, Allowed, RowFor(id, args, site, ctx, true, None))
        else s.(calls := s.calls[id := Limiting(args, site, ctx)],
                opens := OpenRuns.Next(s.opens, OpenRuns.Begin(id, RequestFor(args, site, ctx))))
    case Limiter(step) => if step.Begin? then s else s.(opens := OpenRuns.Next(s.opens, step))
    case Audit(id) =>
      if id in s.calls && s.calls[id].Limiting? && id in s.opens.attempts && s.opens.attempts[id].Finished() then
        var Limiting(args, site, ctx) := s.calls[id];
        (match s.opens.attempts[id].phase
         case Admitted(_) => Finish(s, id, args, Allowed, RowFor(id, args, site, ctx, true, None))
         case Degraded => Finish(s, id, args, Allowed, RowFor(id, args, site, ctx, true, Some(RateLimitCheckFailed)))
         case Denied(d) =>
           Finish(s, id, args, Refused(ReasonError(d), d.retryAfterS),
                  RowFor(id, args, site, ctx, false, Some(ReasonError(d))))
         case _ => s)
      else s
  }

  function Exec(es: seq<Event>): State {
    if es == [] then INIT else Next(Exec(es[..|es| - 1]), es[|es| - 1])
  }

  // -- Counting rows ----------------------------------------------------------------

  function CountRows(rows: seq<Row>, p: Row -> bool): nat {
    if rows == [] then 0 else CountRows(rows[..|rows| - 1], p) + (if p(rows[|rows| - 1]) then 1 else 0)
  }

  lemma CountRowsSnoc(rows: seq<Row>, row: Row, p: Row -> bool)
    ensures CountRows(rows + [row], p) == CountRows(rows, p) + (if p(row) then 1 else 0)
  {
    assert (rows + [row])[..|rows|] == rows;
  }

  predicate IsSuccessfulOpen(r: Row, loc: string, day: int) {
    r.command.Open? && r.success && r.locationId == loc && r.day == day
  }

  predicate IsDegraded(r: Row) {
    r.error == Some(RateLimitCheckFailed)
  }

  function SuccessfulOpen(loc: string, day: int): Row -> bool {
    (r: Row) => IsSuccessfulOpen(r, loc, day)
  }

  function DegradedOpen(loc: string, day: int): Row -> bool {
    (r: Row) => IsSuccessfulOpen(r, loc, day) && IsDegraded(r)
  }

  function CountedOpen(loc: string, day: int): Row -> bool {
    (r: Row) => IsSuccessfulOpen(r, loc, day) && !IsDegraded(r)
  }

  function OfCall(id: Id): Row -> bool {
    (r: Row) => r.call == id
  }

  lemma {:induction false} DegradedSplit(rows: seq<Row>, loc: string, day: int)
    ensures CountRows(rows, SuccessfulOpen(loc, day))
            == CountRows(rows, CountedOpen(loc, day)) + CountRows(rows, DegradedOpen(loc, day))
  {
    if rows != [] {
      DegradedSplit(rows[..|rows| - 1], loc, day);
    }
  }

  // -- Invariant ----------------------------------------------------------------------

  /** Calls whose counter units are not yet matched by an audit row. */
  function Unaudited(s: State, k: Key): set<Id> {
    set id | id in OpenRuns.Holders(s.opens, k) && id in s.calls && s.calls[id].Limiting?
  }

  ghost predicate CallOk(s: State, id: Id)
    requires id in s.calls
  {
    match s.calls[id]
    case NotFound => id !in s.opens.attempts
    case Limiting(args, site, ctx) =>
      && args.command.Open?
      && id in s.opens.attempts && s.opens.attempts[id].job == RequestFor(args, site, ctx).ToJob()
    case Done(args, verdict) =>
      && (id in s.opens.attempts ==> s.opens.attempts[id].Finished())
      && (args.command.Close? ==> verdict == Allowed)
  }

  ghost predicate Inv(s: State) {
    && OpenRuns.Conserved(s.opens)
    && (forall id :: id in s.calls ==> CallOk(s, id))
    && (forall id :: id in s.opens.attempts ==> id in s.calls)
  }

  ghost predicate OneRowPerDone(s: State, id: Id) {
    && CountRows(s.rows, OfCall(id)) == (if id in s.calls && s.calls[id].Done? then 1 else 0)
    && (forall i :: 0 <= i < |s.rows| && s.rows[i].call == id && id in s.calls && s.calls[id].Done? ==>
          if s.rows[i].success then s.calls[id].verdict == Allowed
          else s.calls[id].verdict.Refused? && s.rows[i].error == Some(s.calls[id].verdict.reason))
    && (forall i :: 0 <= i < |s.rows| && s.rows[i].call == id ==> id in s.calls && s.calls[id].Done?)
  }

  /** Claimed for the days the table still keeps. */
  ghost predicate RowsMatchCounter(s: State, loc: string, day: int) {
    !StaleWindow(LocationDayKey(loc, day), s.opens.dbNow) ==>
    Count(s.opens.store, LocationDayKey(loc, day))
    == CountRows(s.rows, CountedOpen(loc, day)) + |Unaudited(s, LocationDayKey(loc, day))|
  }

  lemma ChargesLocationDay(req: Request, loc: string, day: int)
    ensures LocationDayKey(loc, day) in req.ToJob().Keys() <==> req.locationId == loc && req.DayStart() == day
  {
    assert ("loc:" + loc)[4..] == loc;
    assert ("loc:" + req.locationId)[4..] == req.locationId;
    var keys := req.ToJob().Keys();
    assert keys[|keys| - 1] == req.LocationDay().key;
  }

  // Each kind of step, as a relation between the states before and after.

  /** The call id arrived and was answered on the spot with one row. */
  ghost predicate Answered(s: State, s': State, id: Id) {
    && id !in s.calls && id !in s.opens.attempts
    && s'.opens == s.opens
    && id in s'.calls && s'.calls[id].Done? && s'.calls == s.calls[id := s'.calls[id]]
    && (s'.calls[id].args.command.Close? ==> s'.calls[id].verdict == Allowed)
    && |s'.rows| == |s.rows| + 1 && s'.rows == s.rows + [s'.rows[|s.rows|]]
    && var row := s'.rows[|s.rows|];
       && RowAgrees(row, id, s'.calls[id].verdict)
       && (row.command.Open? ==> !row.success)
  }

  predicate RowAgrees(row: Row, id: Id, verdict: Verdict) {
    && row.call == id
    && if row.success then verdict == Allowed else verdict.Refused? && row.error == Some(verdict.reason)
  }

  /** The call id arrived and either failed its lookup or entered the limiter. */
  ghost predicate Entered(s: State, s': State, id: Id) {
    && id !in s.calls && id !in s.opens.attempts
    && id in s'.calls && s'.calls == s.calls[id := s'.calls[id]]
    && s'.rows == s.rows
    && match s'.calls[id]
       case NotFound => s'.opens == s.opens
       case Limiting(args, site, ctx) =>
         && args.command.Open?
         && s'.opens == s.opens.(attempts := s.opens.attempts[id := Start(RequestFor(args, site, ctx))])
       case Done(_, _) => false
  }

  /** The call id left the limiter and wrote its row. */
  ghost predicate Audited(s: State, s': State, id: Id) {
    && id in s.calls && s.calls[id].Limiting? && id in s.opens.attempts && s.opens.attempts[id].Finished()
    && s'.opens == s.opens
    && id in s'.calls && s'.calls[id].Done? && s'.calls == s.calls[id := s'.calls[id]]
    && s'.calls[id].args.command.Open?
    && |s'.rows| == |s.rows| + 1 && s'.rows == s.rows + [s'.rows[|s.rows|]]
    && var row := s'.rows[|s.rows|];
       && RowAgrees(row, id, s'.calls[id].verdict)
       && row.command.Open?
       && row.locationId == s.calls[id].site.locationId && row.day == FixedWindowStart(s.calls[id].ctx.now, DAY_S)
       && (row.success && row.error != Some(RateLimitCheckFailed) <==> s.opens.attempts[id].phase.Admitted?)
  }

  lemma ArriveIs(s: State, id: Id, args: Args, ctx: Context)
    ensures var s' := Next(s, Arrive(id, args, ctx)); s' == s || Answered(s, s', id) || Entered(s, s', id)
  {
    assert id in s.calls || id in s.opens.attempts ==> Next(s, Arrive(id, args, ctx)) == s;
  }

  lemma AuditIs(s: State, id: Id)
    requires Inv(s)
    ensures var s' := Next(s, Audit(id)); s' == s || Audited(s, s', id)
  {
    if id in s.calls { assert CallOk(s, id); }
  }

  lemma InvHolds(s: State, e: Event)
    requires Inv(s)
    ensures Inv(Next(s, e))
  {
    var s' := Next(s, e);
    match e
    case Limiter(step) =>
      OpenRuns.NextConserves(s.opens, step);
      forall id | id in s.opens.attempts
        ensures id in s'.opens.attempts && s'.opens.attempts[id].job == s.opens.attempts[id].job
      {
        OpenRuns.JobsPersist(s.opens, step, id);
      }
      LimiterKeepsCalls(s, s', step);
    case Arrive(id, args, ctx) =>
      ArriveIs(s, id, args, ctx);
      if Entered(s, s', id) {
        EnteredKeepsInv(s, s', id);
      } else if Answered(s, s', id) {
        AnsweredKeepsInv(s, s', id);
      }
    case Audit(id) =>
      AuditIs(s, id);
      if Audited(s, s', id) {
        AuditedKeepsInv(s, s', id);
      }
  }

  lemma LimiterKeepsCalls(s: State, s': State, step: OpenRuns.Event)
    requires Inv(s) && s' == Next(s, Limiter(step))
    requires OpenRuns.Conserved(s'.opens)
    ensures Inv(s')
  {
    if (step.Run? || step.StoreError?) && OpenRuns.Enabled(s.opens, step) {
      OpenRuns.NextMovesOne(s.opens, step);
      MovedKeepsInv(s, s', step.id);
    } else {
      assert s'.opens.attempts == s.opens.attempts;
    }
  }

  lemma MovedKeepsInv(s: State, s': State, id: Id)
    requires Inv(s) && OpenRuns.Moved(s.opens, s'.opens, id) && OpenRuns.Conserved(s'.opens)
    requires s'.calls == s.calls && s'.rows == s.rows
    ensures Inv(s')
  {
    forall x | x in s'.calls ensures CallOk(s', x) {
      assert CallOk(s, x);
    }
  }

  lemma EnteredKeepsInv(s: State, s': State, id: Id)
    requires Inv(s) && Entered(s, s', id)
    ensures Inv(s')
  {
    if s'.calls[id].Limiting? {
      var req := RequestFor(s'.calls[id].args, s'.calls[id].site, s'.calls[id].ctx);
      OpenRuns.NextConserves(s.opens, OpenRuns.Begin(id, req));
    }
    forall x | x in s'.calls ensures CallOk(s', x) {
      assert x in s.calls ==> CallOk(s, x);
    }
  }

  lemma AnsweredKeepsInv(s: State, s': State, id: Id)
    requires Inv(s) && Answered(s, s', id)
    ensures Inv(s')
  {
    forall x | x in s'.calls ensures CallOk(s', x) {
      assert x in s.calls ==> CallOk(s, x);
    }
  }

  lemma AuditedKeepsInv(s: State, s': State, id: Id)
    requires Inv(s) && Audited(s, s', id)
    ensures Inv(s')
  {
    forall x | x in s'.calls ensures CallOk(s', x) {
      assert x in s.calls ==> CallOk(s, x);
    }
  }

  lemma MovedKeepsMatching(s: State, s': State, id: Id, loc: string, day: int)
    requires Inv(s) && RowsMatchCounter(s, loc, day) && OpenRuns.Moved(s.opens, s'.opens, id)
    requires s'.calls == s.calls && s'.rows == s.rows
    ensures RowsMatchCounter(s', loc, day)
  {
    var k := LocationDayKey(loc, day);
    OpenRuns.HoldersUpdate(s.opens, s'.opens, id, k);
    MoveOneHolder(s, s', id, k);
    assert !StaleWindow(k, s.opens.dbNow) ==>
        Moves(s.opens.store, s.opens.attempts[id], (s'.opens.store, s'.opens.attempts[id]), k);
    assert id in s.calls && CallOk(s, id);
  }

  /** Set-level bookkeeping: one holder changed. */
  lemma MoveOneHolder(s: State, s': State, id: Id, k: Key)
    requires s'.calls == s.calls && id in s.calls
    requires OpenRuns.Holders(s'.opens, k) == OpenRuns.Holders(s.opens, k) + {id}
             || OpenRuns.Holders(s'.opens, k) == OpenRuns.Holders(s.opens, k) - {id}
    ensures s.calls[id].Limiting? ==>
              |Unaudited(s', k)|
              == |Unaudited(s, k)| - One(id in OpenRuns.Holders(s.opens, k)) + One(id in OpenRuns.Holders(s'.opens, k))
    ensures !s.calls[id].Limiting? ==> Unaudited(s', k) == Unaudited(s, k)
  {
    if s.calls[id].Limiting? {
      assert Unaudited(s, k) - {id} == Unaudited(s', k) - {id};
      OneMoved(Unaudited(s, k), Unaudited(s', k), id);
    }
  }

  lemma AuditedKeepsMatching(s: State, s': State, id: Id, loc: string, day: int)
    requires Inv(s) && RowsMatchCounter(s, loc, day) && Audited(s, s', id)
    ensures RowsMatchCounter(s', loc, day)
  {
    var k := LocationDayKey(loc, day);
    AuditedHolds(s, s', id, loc, day);
    CountRowsSnoc(s.rows, s'.rows[|s.rows|], CountedOpen(loc, day));
    DoneLeavesUnaudited(s, s', id, k);
  }

  lemma DoneLeavesUnaudited(s: State, s': State, id: Id, k: Key)
    requires s'.opens == s.opens && id in s.calls && s.calls[id].Limiting?
    requires id in s'.calls && !s'.calls[id].Limiting? && s'.calls == s.calls[id := s'.calls[id]]
    ensures |Unaudited(s', k)| == |Unaudited(s, k)| - One(id in OpenRuns.Holders(s.opens, k))
  {
    assert Unaudited(s', k) == Unaudited(s, k) - {id};
    assert id in Unaudited(s, k) <==> id in OpenRuns.Holders(s.opens, k);
  }

  /** A finished attempt holds the location counter exactly when its row is counted. */
  lemma AuditedHolds(s: State, s': State, id: Id, loc: string, day: int)
    requires Inv(s) && Audited(s, s', id)
    ensures id in OpenRuns.Holders(s.opens, LocationDayKey(loc, day)) <==> CountedOpen(loc, day)(s'.rows[|s.rows|])
  {
    var a, row := s.opens.attempts[id], s'.rows[|s.rows|];
    var req := RequestFor(s.calls[id].args, s.calls[id].site, s.calls[id].ctx);
    assert CallOk(s, id);
    ChargesLocationDay(req, loc, day);
    if a.phase.Admitted? { AdmittedHoldsPlan(a, LocationDayKey(loc, day)); }
    assert row.success && !IsDegraded(row) <==> a.phase.Admitted?;
    assert IsSuccessfulOpen(row, loc, day) && !IsDegraded(row)
        <==> a.phase.Admitted? && req.locationId == loc && req.DayStart() == day;
  }

  lemma AnsweredKeepsMatching(s: State, s': State, id: Id, loc: string, day: int)
    requires RowsMatchCounter(s, loc, day) && Answered(s, s', id)
    ensures RowsMatchCounter(s', loc, day)
  {
    CountRowsSnoc(s.rows, s'.rows[|s.rows|], CountedOpen(loc, day));
    assert !IsSuccessfulOpen(s'.rows[|s.rows|], loc, day);
    assert id !in OpenRuns.Holders(s.opens, LocationDayKey(loc, day));
    assert Unaudited(s', LocationDayKey(loc, day)) == Unaudited(s, LocationDayKey(loc, day));
  }

  lemma EnteredKeepsMatching(s: State, s': State, id: Id, loc: string, day: int)
    requires RowsMatchCounter(s, loc, day) && Entered(s, s', id)
    ensures RowsMatchCounter(s', loc, day)
  {
    var k := LocationDayKey(loc, day);
    assert OpenRuns.Holders(s'.opens, k) == OpenRuns.Holders(s.opens, k);
    assert Unaudited(s', k) == Unaudited(s, k);
  }

  lemma RowsKeepMatching(s: State, e: Event, loc: string, day: int)
    requires Inv(s) && RowsMatchCounter(s, loc, day)
    ensures RowsMatchCounter(Next(s, e), loc, day)
  {
    var s' := Next(s, e);
    match e
    case Limiter(step) =>
      if (step.Run? || step.StoreError?) && OpenRuns.Enabled(s.opens, step) {
        OpenRuns.NextMovesOne(s.opens, step);
        MovedKeepsMatching(s, s', step.id, loc, day);
      } else {
        assert Unaudited(s', LocationDayKey(loc, day)) == Unaudited(s, LocationDayKey(loc, day));
      }
    case Audit(id) =>
      AuditIs(s, id);
      if s' != s { AuditedKeepsMatching(s, s', id, loc, day); }
    case Arrive(id, args, ctx) =>
      ArriveIs(s, id, args, ctx);
      if Answered(s, s', id) { AnsweredKeepsMatching(s, s', id, loc, day); }
      if Entered(s, s', id) { EnteredKeepsMatching(s, s', id, loc, day); }
  }

  lemma DoneKeepsOneRow(s: State, s': State, done: Id, id: Id)
    requires OneRowPerDone(s, id) && (Answered(s, s', done) || Audited(s, s', done))
    ensures OneRowPerDone(s', id)
  {
    CountRowsSnoc(s.rows, s'.rows[|s.rows|], OfCall(id));
    if id == done {
      assert forall i :: 0 <= i < |s.rows| ==> s.rows[i].call != id;
    }
  }

  lemma RowStaysUnique(s: State, e: Event, id: Id)
    requires Inv(s) && OneRowPerDone(s, id)
    ensures OneRowPerDone(Next(s, e), id)
  {
    var s' := Next(s, e);
    match e
    case Limiter(_) =>
    case Audit(x) =>
      AuditIs(s, x);
      if s' != s { DoneKeepsOneRow(s, s', x, id); }
    case Arrive(x, args, ctx) =>
      ArriveIs(s, x, args, ctx);
      if Answered(s, s', x) { DoneKeepsOneRow(s, s', x, id); }
  }

  lemma {:induction false} RunInvariant(es: seq<Event>, id: Id, loc: string, day: int)
    ensures Inv(Exec(es)) && OneRowPerDone(Exec(es), id) && RowsMatchCounter(Exec(es), loc, day)
  {
    if es == [] {
      OpenRuns.RunConserves([]);
      assert Unaudited(INIT, LocationDayKey(loc, day)) == {};
    } else {
      var prefix, last := es[..|es| - 1], es[|es| - 1];
      RunInvariant(prefix, id, loc, day);
      InvHolds(Exec(prefix), last);
      RowStaysUnique(Exec(prefix), last, id);
      RowsKeepMatching(Exec(prefix), last, loc, day);
    }
  }

  // -- Results ----------------------------------------------------------------------

  /** A finished call left exactly one audit row, which agrees with its verdict; any other call left none. */
  lemma ExactlyOneAuditRow(es: seq<Event>, id: Id)
    ensures OneRowPerDone(Exec(es), id)
  {
    RunInvariant(es, id, "", 0);
  }

  /** Closing is never refused: not for suspension, a disabled user or any limit. */
  lemma CloseIsAlwaysAllowed(es: seq<Event>, id: Id)
    requires id in Exec(es).calls && Exec(es).calls[id].Done? && Exec(es).calls[id].args.command.Close?
    ensures Exec(es).calls[id].verdict == Allowed
  {
    RunInvariant(es, id, "", 0);
  }

  /**
   * In every interleaving, once no call is between its limiter and its audit
   * row, the successful open rows of a location and UTC day are its daily
   * counter plus the rows tagged degraded, for as long as that counter is kept.
   */
  lemma AuditMatchesDailyCounter(es: seq<Event>, loc: string, day: int)
    requires !StaleWindow(LocationDayKey(loc, day), Exec(es).opens.dbNow)
    requires forall id :: id in Exec(es).calls ==> !Exec(es).calls[id].Limiting?
    ensures CountRows(Exec(es).rows, SuccessfulOpen(loc, day))
            == Count(Exec(es).opens.store, LocationDayKey(loc, day)) + CountRows(Exec(es).rows, DegradedOpen(loc, day))
  {
    RunInvariant(es, 0, loc, day);
    DegradedSplit(Exec(es).rows, loc, day);
    assert Unaudited(Exec(es), LocationDayKey(loc, day)) == {};
  }

  // -- The code itself ----------------------------------------------------------------

  class ChokePoint {
    const table: OpenDecision.CounterTable
    var rows: seq<Row>

    constructor (table: OpenDecision.CounterTable)
      ensures this.table == table && rows == []
    {
      this.table := table;
      rows := [];
    }

    /**
     * `storeUp` says whether the counter store answers; if it does not, the
     * savepoint is rolled back and the open is allowed and tagged.
     */
    method LogAccess(id: Id, args: Args, ctx: Context, dbNow: int, pick: OpenDecision.Pick, storeUp: bool)
      returns (verdict: Option<Verdict>)
      modifies this, table
      ensures verdict.None? <==> ctx.site.None?
      ensures verdict.None? ==> rows == old(rows) && table.Rows() == old(table.Rows())
      ensures verdict.Some? ==>
                && |rows| == |old(rows)| + 1 && rows[..|old(rows)|] == old(rows)
                && rows[|old(rows)|] == Row(id, ctx.site.value.locationId, OpenPolicy.Day(ctx.now), args.command,
                                            verdict.value.Allowed?, rows[|old(rows)|].error)
                && AnsweredAsDue(old(table.Rows()), args, ctx.site.value, ctx, dbNow, storeUp,
                                 verdict.value, rows[|old(rows)|].error)
                && ChargedAsDue(old(table.Rows()), args, ctx.site.value, ctx, dbNow,
                                verdict.value.Allowed? && args.command.Open? && storeUp, table.Rows())
    {
      hide ChargedAsDue, OpenPolicy.Obstacle;
      hide OpenPolicy.HintIsRight, OpenPolicy.Admissible, OpenPolicy.CountersAfter, OpenPolicy.SentinelsAfter;
      if ctx.site.None? {
        return None;
      }
      var site := ctx.site.value;
      UnchargedAsDue(table.Rows(), args, site, ctx, dbNow);
      OpenDecision.WindowsAre(ctx.now);
      hide FixedWindowStart;
      if args.command.Open? && site.suspended {
        rows := rows + [RowFor(id, args, site, ctx, false, Some(AccountSuspended))];
        return Some(Refused(AccountSuspended, 0));
      }
      if args.command.Open? && NamedUser(args) && ctx.userStatus != Some("active") {
        rows := rows + [RowFor(id, args, site, ctx, false, Some(UserDisabled))];
        return Some(Refused(UserDisabled, 0));
      }
      var degradedNote: Option<AuditError> := None;
      if args.command.Open? {
        if storeUp {
          ghost var before := table.Rows();
          var decision := table.CheckAndConsumeOpenLimits(RequestFor(args, site, ctx), dbNow, pick);
          LimiterCharges(before, args, site, ctx, dbNow, decision.Allow?, table.Rows());
          if decision.Deny? {
            var reason := ReasonError(decision.denial);
            rows := rows + [RowFor(id, args, site, ctx, false, Some(reason))];
            return Some(Refused(reason, decision.denial.retryAfterS));
          }
        } else {
          degradedNote := Some(RateLimitCheckFailed);
        }
      }
      rows := rows + [RowFor(id, args, site, ctx, true, degradedNote)];
      return Some(Allowed);
    }
  }

  /** The limits an open of this site by this caller is put to. */
  ghost function Demand(args: Args, site: Site, ctx: Context): Request {
    Request(userId := args.userId, phoneE164 := args.phoneE164, accessPointId := args.accessPointId,
            locationId := site.locationId, accountId := site.accountId,
            now := ctx.now, cfg := ctx.cfg, quota := ctx.quota)
  }

  /**
   * What a call is answered, and the note its row carries: a close is always
   * allowed; an open needs an account in good standing and an active user,
   * and then what the limits admit, or a counter store that is down.
   */
  ghost predicate AnsweredAsDue(st: Store, args: Args, site: Site, ctx: Context, dbNow: int, storeUp: bool,
                                verdict: Verdict, error: Option<AuditError>) {
    var req := Demand(args, site, ctx);
    if args.command.Close? then verdict == Allowed && error == None
    else if site.suspended then verdict == Refused(AccountSuspended, 0) && error == Some(AccountSuspended)
    else if args.userId.Some? && args.userId.value != "" && ctx.userStatus != Some("active") then
      verdict == Refused(UserDisabled, 0) && error == Some(UserDisabled)
    else if !storeUp then verdict == Allowed && error == Some(RateLimitCheckFailed)
    else if OpenPolicy.Admissible(st, req, dbNow) then verdict == Allowed && error == None
    else
      var limit := OpenPolicy.Obstacle(st, req);
      && verdict.Refused? && error == Some(verdict.reason)
      && verdict.reason == (if limit in {MemberOpensPerDay, LocationOpensPerDay} then AuditError.QuotaExceeded
                            else AuditError.RateLimited)
      && OpenPolicy.HintIsRight(st, req, Denial(limit, verdict.retryAfterS))
  }

  /** What it leaves in the counter table. */
  ghost predicate ChargedAsDue(st: Store, args: Args, site: Site, ctx: Context, dbNow: int, counted: bool, st': Store) {
    && OpenPolicy.CountersAfter(st, Demand(args, site, ctx), counted, dbNow, st')
    && OpenPolicy.SentinelsAfter(st, Demand(args, site, ctx), counted, dbNow, st')
  }

  lemma UnchargedAsDue(st: Store, args: Args, site: Site, ctx: Context, dbNow: int)
    ensures ChargedAsDue(st, args, site, ctx, dbNow, false, st)
  {
  }

  lemma LimiterCharges(st: Store, args: Args, site: Site, ctx: Context, dbNow: int, allowed: bool, st': Store)
    requires OpenPolicy.CountersAfter(st, RequestFor(args, site, ctx), allowed, dbNow, st')
    requires OpenPolicy.SentinelsAfter(st, RequestFor(args, site, ctx), allowed, dbNow, st')
    ensures ChargedAsDue(st, args, site, ctx, dbNow, allowed, st')
  {
  }

  /**
   * Where a call that arrives goes, in the interleaved machine: it is answered
   * on the spot for the same reasons, or put to the limiter with the same
   * request.
   */
  lemma ArrivalIsGated(s: State, id: Id, args: Args, ctx: Context)
    requires id !in s.calls && id !in s.opens.attempts
    ensures var s' := Next(s, Arrive(id, args, ctx));
            && id in s'.calls
            && match ctx.site
               case None => s'.calls[id] == NotFound && s'.rows == s.rows && s'.opens == s.opens
               case Some(site) =>
                 var named := args.userId.Some? && args.userId.value != "";
                 var day := OpenPolicy.Day(ctx.now);
                 if args.command.Close? then
                   && s'.calls[id] == Done(args, Allowed) && s'.opens == s.opens
                   && s'.rows == s.rows + [Row(id, site.locationId, day, Close, true, None)]
                 else if site.suspended then
                   && s'.calls[id] == Done(args, Refused(AccountSuspended, 0)) && s'.opens == s.opens
                   && s'.rows == s.rows + [Row(id, site.locationId, day, Open, false, Some(AccountSuspended))]
                 else if named && ctx.userStatus != Some("active") then
                   && s'.calls[id] == Done(args, Refused(UserDisabled, 0)) && s'.opens == s.opens
                   && s'.rows == s.rows + [Row(id, site.locationId, day, Open, false, Some(UserDisabled))]
                 else
                   && s'.calls[id] == Limiting(args, site, ctx) && s'.rows == s.rows
                   && id in s'.opens.attempts && s'.opens.attempts[id] == Start(Demand(args, site, ctx))
  {
    OpenDecision.WindowsAre(ctx.now);
    hide FixedWindowStart, Start;
  }

  /**
   * How a call leaves the limiter in that machine: an open that was admitted,
   * or during which the counter store failed, is allowed, the latter tagged;
   * one that was denied is refused with its reason and hint. Its row says so.
   */
  lemma LimitedCallsAreAnswered(s: State, id: Id)
    requires id in s.calls && s.calls[id].Limiting? && id in s.opens.attempts && s.opens.attempts[id].Finished()
    ensures var s' := Next(s, Audit(id));
            var Limiting(args, site, ctx) := s.calls[id];
            var day := OpenPolicy.Day(ctx.now);
            && s'.opens == s.opens && id in s'.calls
            && match s.opens.attempts[id].phase
               case Admitted(_) =>
                 && s'.calls[id] == Done(args, Allowed)
                 && s'.rows == s.rows + [Row(id, site.locationId, day, args.command, true, None)]
               case Denied(d) =>
                 var error := if d.limit in {MemberOpensPerDay, LocationOpensPerDay} then AuditError.QuotaExceeded
                              else AuditError.RateLimited;
                 && s'.calls[id] == Done(args, Refused(error, d.retryAfterS))
                 && s'.rows == s.rows + [Row(id, site.locationId, day, args.command, false, Some(error))]
               case _ =>
                 && s'.calls[id] == Done(args, Allowed)
                 && s'.rows == s.rows + [Row(id, site.locationId, day, args.command, true, Some(RateLimitCheckFailed))]
  {
    OpenDecision.WindowsAre(s.calls[id].ctx.now);
    hide FixedWindowStart;
  }
}
