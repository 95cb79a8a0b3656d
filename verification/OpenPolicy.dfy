/**
 * The open limits as they are meant, read off a request and the counter
 * table: which counter is bounded by which number, for whom, and what a
 * refusal tells the caller. Nothing here goes through the limiter's plan.
 */
module OpenPolicy {
  import opened Common
  import opened OpenLimiter

  /** The opener, when known: a user before a phone number. */
  function Who(req: Request): Option<string> {
    if req.userId.Some? && req.userId.value != "" then Some("user:" + req.userId.value)
    else if req.phoneE164.Some? && req.phoneE164.value != "" then Some("phone:" + req.phoneE164.value)
    else None
  }

  function Hour(now: int): int {
    now / 3_600_000 * 3_600_000
  }

  function Day(now: int): int {
    now / 86_400_000 * 86_400_000
  }

  /** One more unit fits under the cap; a cap of 0 admits nothing. */
  predicate Fits(st: Store, k: Key, cap: int) {
    cap > 0 && (k in st.counts ==> st.counts[k] < cap)
  }

  function MemberHourKey(who: string, req: Request): Key {
    Key(Opens1h, who, Hour(req.now))
  }

  function AccountHourKey(req: Request): Key {
    Key(AcctOpens1h, "acct:" + req.accountId, Hour(req.now))
  }

  function MemberDayKey(who: string, req: Request): Key {
    Key(Opens1d, who + "|loc:" + req.locationId, Day(req.now))
  }

  function LocationDayKey(req: Request): Key {
    Key(LocOpens1d, "loc:" + req.locationId, Day(req.now))
  }

  /** The hourly limits hold for everyone, administrators included. */
  predicate MemberHourFits(st: Store, req: Request) {
    Who(req).Some? ==> Fits(st, MemberHourKey(Who(req).value, req), req.cfg.opensPerHour)
  }

  predicate AccountHourFits(st: Store, req: Request) {
    Fits(st, AccountHourKey(req), req.cfg.accountOpensPerHour)
  }

  /** The daily quotas hold where they are set, and not for administrators. */
  predicate MemberDayFits(st: Store, req: Request) {
    Who(req).Some? && !req.quota.isAdmin && req.quota.member.Some? ==>
      Fits(st, MemberDayKey(Who(req).value, req), req.quota.member.value)
  }

  predicate LocationDayFits(st: Store, req: Request) {
    !req.quota.isAdmin && req.quota.location.Some? ==> Fits(st, LocationDayKey(req), req.quota.location.value)
  }

  function Sentinel(who: string, req: Request): string {
    who + "|ap:" + req.accessPointId
  }

  /** The opener's last open of this access point is a cooldown away. */
  predicate Rested(st: Store, req: Request, now: int) {
    Who(req).Some? && req.cfg.openCooldownS > 0 && Sentinel(Who(req).value, req) in st.lastOpen ==>
      st.lastOpen[Sentinel(Who(req).value, req)] + req.cfg.openCooldownS * 1000 <= now
  }

  predicate Admissible(st: Store, req: Request, dbNow: int) {
    && MemberHourFits(st, req) && AccountHourFits(st, req)
    && MemberDayFits(st, req) && LocationDayFits(st, req)
    && Rested(st, req, req.now) && Rested(st, req, dbNow)
  }

  /** The limit a refusal names: the first in this order that stands in the way. */
  function Obstacle(st: Store, req: Request): Limit {
    if !Rested(st, req, req.now) then OpenCooldown
    else if !MemberHourFits(st, req) then MemberOpensPerHour
    else if !AccountHourFits(st, req) then AccountOpensPerHour
    else if !MemberDayFits(st, req) then MemberOpensPerDay
    else if !LocationDayFits(st, req) then LocationOpensPerDay
    else OpenCooldown
  }

  /** s is the least positive number of whole seconds that leads from `from` to `to` or beyond. */
  predicate LeastSeconds(from: int, to: int, s: int) {
    s >= 1 && to <= from + s * 1000 && (s > 1 ==> from + (s - 1) * 1000 < to)
  }

  /** When the refusal says to come back: at the end of the hour, of the day, or of the cooldown. */
  predicate HintIsRight(st: Store, req: Request, d: Denial) {
    match d.limit
    case MemberOpensPerHour => LeastSeconds(req.now, Hour(req.now) + 3_600_000, d.retryAfterS)
    case AccountOpensPerHour => LeastSeconds(req.now, Hour(req.now) + 3_600_000, d.retryAfterS)
    case MemberOpensPerDay => LeastSeconds(req.now, Day(req.now) + 86_400_000, d.retryAfterS)
    case LocationOpensPerDay => LeastSeconds(req.now, Day(req.now) + 86_400_000, d.retryAfterS)
    case OpenCooldown =>
      && Who(req).Some? && Sentinel(Who(req).value, req) in st.lastOpen
      && LeastSeconds(req.now, st.lastOpen[Sentinel(Who(req).value, req)] + req.cfg.openCooldownS * 1000, d.retryAfterS)
  }

  /** The counters an admitted request adds to. */
  function Counters(req: Request): set<Key> {
    {AccountHourKey(req), LocationDayKey(req)}
    + if Who(req).Some? then {MemberHourKey(Who(req).value, req), MemberDayKey(Who(req).value, req)} else {}
  }

  /** Counter windows of the last two days are never pruned. */
  predicate Kept(k: Key, dbNow: int) {
    k.windowStart <= 0 || dbNow - 172_800_000 <= k.windowStart
  }

  /**
   * The sentinels after an admitted request: its own is set to the database's
   * clock, and others can only go, once they are older than the cooldown and
   * than a day. A refused request and one of nobody touch none.
   */
  ghost predicate SentinelsAfter(st: Store, req: Request, allowed: bool, dbNow: int, st': Store) {
    if !allowed || Who(req).None? then st'.lastOpen == st.lastOpen
    else
      var own := Sentinel(Who(req).value, req);
      && own in st'.lastOpen && st'.lastOpen[own] == dbNow
      && (forall x :: x != own && x in st'.lastOpen ==> x in st.lastOpen && st'.lastOpen[x] == st.lastOpen[x])
      && (forall x :: x in st.lastOpen && x !in st'.lastOpen ==>
            st.lastOpen[x] < dbNow - 86_400_000 && st.lastOpen[x] < dbNow - req.cfg.openCooldownS * 1000)
  }

  /** The counters afterwards: one more where the request counts, if it was allowed; old windows may be gone. */
  ghost predicate CountersAfter(st: Store, req: Request, allowed: bool, dbNow: int, st': Store) {
    forall k :: Kept(k, dbNow) ==> Count(st', k) == Count(st, k) + if allowed && k in Counters(req) then 1 else 0
  }
}
