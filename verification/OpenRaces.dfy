/**
 * What the limits promise in every interleaving, in terms of the requests
 * that were made: no limit is ever exceeded, and opens keep their distance.
 */
module OpenRaces {
  import opened Common
  import opened OpenLimiter
  import opened OpenRuns
  import OpenPolicy
  import OpenDecision

  /** The request under which an attempt was begun. */
  ghost function Begun(es: seq<Event>, id: Id): Option<Request> {
    if es == [] then None
    else
      var prefix, e := es[..|es| - 1], es[|es| - 1];
      if Begun(prefix, id).Some? then Begun(prefix, id)
      else if e.Begin? && e.id == id then Some(e.req)
      else None
  }

  lemma {:induction false} AttemptIsOfRequest(es: seq<Event>, id: Id)
    ensures id in Exec(es).attempts <==> Begun(es, id).Some?
    ensures Begun(es, id).Some? ==> Exec(es).attempts[id].job == Begun(es, id).value.ToJob()
  {
    if es != [] {
      var prefix, e := es[..|es| - 1], es[|es| - 1];
      AttemptIsOfRequest(prefix, id);
      if id in Exec(prefix).attempts {
        JobsPersist(Exec(prefix), e, id);
      }
    }
  }

  /** The bound a request puts on one of its counters, if any. */
  function BoundOn(req: Request, k: Key): Option<int> {
    match k.scope
    case Opens1h => Some(req.cfg.opensPerHour)
    case AcctOpens1h => Some(req.cfg.accountOpensPerHour)
    case Opens1d => if req.quota.isAdmin then None else req.quota.member
    case LocOpens1d => if req.quota.isAdmin then None else req.quota.location
  }

  /** Everyone who counts towards k is bounded by at most c there. */
  ghost predicate AllBounded(es: seq<Event>, k: Key, c: nat) {
    forall id :: Begun(es, id).Some? && k in OpenPolicy.Counters(Begun(es, id).value) ==>
      var bound := BoundOn(Begun(es, id).value, k); bound.Some? && bound.value <= c
  }

  /** The opens admitted so far that count towards k. */
  ghost function AdmittedOn(es: seq<Event>, k: Key): set<Id> {
    set id | id in Exec(es).attempts && Exec(es).attempts[id].phase.Admitted?
             && Begun(es, id).Some? && k in OpenPolicy.Counters(Begun(es, id).value)
  }

  lemma CapIsBound(req: Request, i: nat)
    requires i < |req.ToJob().plan|
    ensures req.ToJob().plan[i].cap == BoundOn(req, req.ToJob().plan[i].key)
    ensures req.ToJob().plan[i].key in OpenPolicy.Counters(req)
  {
    OpenDecision.PlanIs(req);
    hide OpenPolicy.Hour, OpenPolicy.Day;
  }

  /**
   * However many opens race, as many as are bounded by c on a counter of the
   * last two days are admitted on it at most: opens of a member or of an
   * account in an hour, of a member or of all at a location in a day.
   */
  lemma RacingOpensRespectLimits(es: seq<Event>, k: Key, c: nat)
    requires AllBounded(es, k, c) && OpenPolicy.Kept(k, Exec(es).dbNow)
    ensures |AdmittedOn(es, k)| <= c
  {
    var s := Exec(es);
    forall id, i | id in s.attempts && 0 <= i < |s.attempts[id].job.plan| && s.attempts[id].job.plan[i].key == k
      ensures var cap := s.attempts[id].job.plan[i].cap; cap.Some? && cap.value <= c
    {
      AttemptIsOfRequest(es, id);
      CapIsBound(Begun(es, id).value, i);
    }
    assert CappedBy(s, k, c);
    CapsAreExact(es, k, c);
    assert !StaleWindow(k, s.dbNow);
    RunConserves(es);
    forall id ensures id in AdmittedOn(es, k) <==> id in AdmittedUsing(s, k) {
      AttemptIsOfRequest(es, id);
      if id in s.attempts && s.attempts[id].phase.Admitted? {
        AdmittedHoldsPlan(s.attempts[id], k);
        OpenDecision.ChargesThePolicy(Begun(es, id).value, k);
      }
    }
    assert AdmittedOn(es, k) == AdmittedUsing(s, k);
  }

  ghost predicate AllCooldown(es: seq<Event>, c: nat) {
    forall id :: Begun(es, id).Some? ==> Begun(es, id).value.cfg.openCooldownS == c
  }

  /** Two opens admitted for the same known opener and access point are at least the cooldown apart. */
  lemma RacingOpensAreSpaced(es: seq<Event>, c: nat, i: Id, j: Id)
    requires AllCooldown(es, c) && i != j
    requires i in Exec(es).attempts && Exec(es).attempts[i].phase.Admitted? && Begun(es, i).Some?
    requires j in Exec(es).attempts && Exec(es).attempts[j].phase.Admitted? && Begun(es, j).Some?
    requires var a, b := Begun(es, i).value, Begun(es, j).value;
             OpenPolicy.Who(a).Some? && OpenPolicy.Who(b) == OpenPolicy.Who(a) && b.accessPointId == a.accessPointId
    ensures var first, second := Exec(es).attempts[i].phase.openedAt, Exec(es).attempts[j].phase.openedAt;
            first + c * 1000 <= second || second + c * 1000 <= first
  {
    forall id | id in Exec(es).attempts ensures Exec(es).attempts[id].job.cooldownS == c {
      AttemptIsOfRequest(es, id);
      OpenDecision.PlanIs(Begun(es, id).value);
    }
    AttemptIsOfRequest(es, i);
    AttemptIsOfRequest(es, j);
    var a := Begun(es, i).value;
    OpenDecision.PlanIs(a);
    OpenDecision.PlanIs(Begun(es, j).value);
    OpensAreSpaced(es, c, i, j, OpenPolicy.Sentinel(OpenPolicy.Who(a).value, a));
  }
}
