/**
 * Issuing an offline grant at the gateway, and what the issued grant is worth
 * at the controllers of the access points it was asked for. The store is a
 * snapshot; keys and signatures are uninterpreted.
 */
module OfflineGrants {
  import opened Windows
  import opened Grants
  import opened Common

  const MAX_ACCESS_POINTS := 50
  const GRANT_TTL := 604800

  datatype Site = Site(accountId: string, suspended: bool, deviceId: string)

  datatype Directory = Directory(
    sites: map<string, Site>,
    active: set<string>,
    members: set<(string, string)>)

  datatype Request = Request(user: string, appPubkey: string, keyOk: bool, accessPoints: seq<string>)

  datatype Refusal =
    | InvalidAppPubkey | InvalidGrant | UserDisabled
    | AccessPointNotFound | AccountSuspended | AccessPointHasNoDevice

  datatype Outcome = Issued(grant: Grant) | Refused(why: Refusal)

  // -- Ordering ----------------------------------------------------------------------

  /** Lexicographic order on strings. */
  predicate Leq(a: string, b: string) {
    a == "" || (b != "" && (a[0] < b[0] || (a[0] == b[0] && Leq(a[1..], b[1..]))))
  }

  /** The strings agree before i, where a has the smaller character. */
  ghost predicate SmallerAt(a: string, b: string, i: nat) {
    i < |a| && i < |b| && a[i] < b[i] && forall j :: 0 <= j < i ==> a[j] == b[j]
  }

  /** Not after: a prefix, or the smaller character at the first difference. */
  lemma {:induction false} LeqIsFirstDifference(a: string, b: string)
    ensures Leq(a, b) <==> (|a| <= |b| && forall j :: 0 <= j < |a| ==> a[j] == b[j]) || exists i :: SmallerAt(a, b, i)
  {
    if a != "" && b != "" {
      assert a[0] < b[0] ==> SmallerAt(a, b, 0);
      if a[0] == b[0] {
        LeqIsFirstDifference(a[1..], b[1..]);
        assert forall j :: 1 <= j < |a| ==> a[j] == a[1..][j - 1];
        assert forall j :: 1 <= j < |b| ==> b[j] == b[1..][j - 1];
        assert forall i: nat :: SmallerAt(a[1..], b[1..], i) ==> SmallerAt(a, b, i + 1);
        assert forall i: nat :: i > 0 && SmallerAt(a, b, i) ==> SmallerAt(a[1..], b[1..], i - 1);
      }
    }
  }

  lemma {:induction false} LeqTotal(a: string, b: string)
    ensures Leq(a, b) || Leq(b, a)
  {
    if a != "" && b != "" && a[0] == b[0] {
      LeqTotal(a[1..], b[1..]);
    }
  }

  ghost predicate Ascending(xs: seq<string>) {
    forall i :: 0 <= i < |xs| - 1 ==> Leq(xs[i], xs[i + 1])
  }

  function Insert(x: string, xs: seq<string>): (r: seq<string>)
    ensures multiset(r) == multiset{x} + multiset(xs)
  {
    if xs == [] || Leq(x, xs[0]) then [x] + xs
    else
      assert xs == [xs[0]] + xs[1..];
      [xs[0]] + Insert(x, xs[1..])
  }

  lemma {:induction false} InsertKeepsOrder(x: string, xs: seq<string>)
    requires Ascending(xs)
    ensures var r := Insert(x, xs); |r| == |xs| + 1 && Ascending(r) && (r[0] == x || (xs != [] && r[0] == xs[0]))
  {
    if xs != [] && !Leq(x, xs[0]) {
      LeqTotal(x, xs[0]);
      var rest := xs[1..];
      assert forall i :: 0 <= i < |rest| ==> rest[i] == xs[i + 1];
      InsertKeepsOrder(x, rest);
    }
  }

  /** Sorting: the same strings, in order. */
  function Sorted(xs: seq<string>): (r: seq<string>)
    ensures multiset(r) == multiset(xs)
    ensures Ascending(r)
  {
    if xs == [] then []
    else
      var n := |xs| - 1;
      assert xs == xs[..n] + [xs[n]];
      InsertKeepsOrder(xs[n], Sorted(xs[..n]));
      Insert(xs[n], Sorted(xs[..n]))
  }

  lemma SortedKeepsElements(xs: seq<string>, x: string)
    ensures x in Sorted(xs) <==> x in xs
  {
    assert x in multiset(Sorted(xs)) <==> x in multiset(xs);
  }

  // -- Issuing -----------------------------------------------------------------------

  ghost predicate Distinct(ids: seq<string>) {
    forall i, j :: 0 <= i < j < |ids| ==> ids[i] != ids[j]
  }

  /** Why nobody may be given this access point, or this user may not; an access point of others looks unknown. */
  ghost predicate Barred(dir: Directory, user: string, ap: string, why: Refusal) {
    if ap !in dir.sites || (dir.sites[ap].accountId, user) !in dir.members then why == AccessPointNotFound
    else if dir.sites[ap].suspended then why == AccountSuspended
    else dir.sites[ap].deviceId == "" && why == AccessPointHasNoDevice
  }

  ghost predicate Granted(dir: Directory, user: string, ap: string) {
    && ap in dir.sites && (dir.sites[ap].accountId, user) in dir.members
    && !dir.sites[ap].suspended && dir.sites[ap].deviceId != ""
  }

  lemma GateIsAsDue(dir: Directory, user: string, ap: string)
    ensures Gate(dir, user, ap) == None <==> Granted(dir, user, ap)
    ensures Gate(dir, user, ap).Some? ==> Barred(dir, user, ap, Gate(dir, user, ap).value)
  {
  }

  /** What a live open at this access point would be refused with right now. */
  function Gate(dir: Directory, user: string, ap: string): Option<Refusal> {
    if ap !in dir.sites then Some(AccessPointNotFound)
    else if (dir.sites[ap].accountId, user) !in dir.members then Some(AccessPointNotFound)
    else if dir.sites[ap].suspended then Some(AccountSuspended)
    else if dir.sites[ap].deviceId == "" then Some(AccessPointHasNoDevice)
    else None
  }

  ghost predicate WellFormed(req: Request) {
    && 1 <= |req.accessPoints| <= 50
    && "" !in req.accessPoints
    && Distinct(req.accessPoints)
  }

  ghost predicate Entitled(dir: Directory, req: Request) {
    && req.keyOk && WellFormed(req) && req.user in dir.active
    && forall ap :: ap in req.accessPoints ==> Granted(dir, req.user, ap)
  }

  /** `why` is what stops the request: its own form first, then the user, then the first barred access point. */
  ghost predicate StoppedBy(dir: Directory, req: Request, why: Refusal) {
    if !req.keyOk then why == InvalidAppPubkey
    else if !WellFormed(req) then why == InvalidGrant
    else if req.user !in dir.active then why == UserDisabled
    else exists i :: 0 <= i < |req.accessPoints|
                  && !Granted(dir, req.user, req.accessPoints[i]) && Barred(dir, req.user, req.accessPoints[i], why)
                  && forall j :: 0 <= j < i ==> Granted(dir, req.user, req.accessPoints[j])
  }

  /** The grant covers the requested access points and their controllers, and nothing else. */
  ghost predicate Covers(g: Grant, dir: Directory, aps: seq<string>) {
    && (forall ap :: ap in g.accessPoints <==> ap in aps)
    && (forall d :: d in g.devices <==>
          exists i :: 0 <= i < |aps| && aps[i] in dir.sites && dir.sites[aps[i]].deviceId == d)
    && multiset(g.accessPoints) == multiset(aps)
    && Ascending(g.accessPoints) && Ascending(g.devices)
    && (forall d :: multiset(g.devices)[d] <= 1)
  }

  method IssueOfflineGrant(dir: Directory, req: Request, grantId: string, now: int) returns (r: Outcome)
    ensures r.Issued? <==> Entitled(dir, req)
    ensures r.Refused? ==> StoppedBy(dir, req, r.why)
    ensures r.Issued? ==>
              && Covers(r.grant, dir, req.accessPoints)
              && r.grant.grantId == grantId && r.grant.appPubkey == req.appPubkey
              && r.grant.windows == [Window("mon-sun", "00:00", "24:00")]
              && r.grant.iat == now && r.grant.exp == now + 604_800
  {
    hide Covers, ControllersOf, Granted, Barred;
    if !req.keyOk {
      return Refused(InvalidAppPubkey);
    }
    var ids := req.accessPoints;
    if |ids| < 1 || |ids| > MAX_ACCESS_POINTS {
      return Refused(InvalidGrant);
    }
    var wellFormed := CheckIds(ids);
    if !wellFormed {
      return Refused(InvalidGrant);
    }
    if req.user !in dir.active {
      return Refused(UserDisabled);
    }
    var refusal, resolved, devices := Resolve(dir, req.user, ids);
    if refusal.Some? {
      return Refused(refusal.value);
    }
    var g := Grant(grantId, req.appPubkey, Sorted(devices), Sorted(resolved), EVERY_DAY, now, now + GRANT_TTL);
    SortingCovers(g, dir, ids, devices);
    r := Issued(g);
  }

  ghost predicate ControllersOf(devices: seq<string>, dir: Directory, aps: seq<string>) {
    && Distinct(devices)
    && (forall d :: d in devices <==>
          exists j :: 0 <= j < |aps| && aps[j] in dir.sites && dir.sites[aps[j]].deviceId == d)
  }

  /** Walks the requested access points in order; stops at the first that is barred. */
  method Resolve(dir: Directory, user: string, ids: seq<string>)
    returns (refusal: Option<Refusal>, resolved: seq<string>, devices: seq<string>)
    ensures refusal.Some? ==>
              exists i :: 0 <= i < |ids| && !Granted(dir, user, ids[i]) && Barred(dir, user, ids[i], refusal.value)
                       && forall j :: 0 <= j < i ==> Granted(dir, user, ids[j])
    ensures refusal.None? ==> resolved == ids && ControllersOf(devices, dir, ids)
                              && forall j :: 0 <= j < |ids| ==> Granted(dir, user, ids[j])
  {
    devices, resolved := [], [];
    for i := 0 to |ids|
      invariant resolved == ids[..i]
      invariant forall j :: 0 <= j < i ==> Granted(dir, user, ids[j])
      invariant Distinct(devices)
      invariant forall d :: d in devices ==>
                  exists j :: 0 <= j < i && ids[j] in dir.sites && dir.sites[ids[j]].deviceId == d
      invariant forall j :: 0 <= j < i ==> dir.sites[ids[j]].deviceId in devices
    {
      var gate := Gate(dir, user, ids[i]);
      GateIsAsDue(dir, user, ids[i]);
      if gate.Some? {
        return gate, resolved, devices;
      }
      resolved := resolved + [ids[i]];
      var d := dir.sites[ids[i]].deviceId;
      if d !in devices {
        devices := devices + [d];
      }
    }
    refusal := None;
  }

  lemma SortingCovers(g: Grant, dir: Directory, aps: seq<string>, devices: seq<string>)
    requires ControllersOf(devices, dir, aps)
    requires g.devices == Sorted(devices) && g.accessPoints == Sorted(aps)
    ensures Covers(g, dir, aps)
  {
    hide Leq, Ascending, Sorted;
    SortedDevices(devices);
    SortedFacts(aps);
    forall x ensures (x in Sorted(devices) <==> x in devices) && (x in Sorted(aps) <==> x in aps) {
      SortedKeepsElements(devices, x);
      SortedKeepsElements(aps, x);
    }
  }

  method CheckIds(ids: seq<string>) returns (ok: bool)
    ensures ok <==> "" !in ids && Distinct(ids)
  {
    var seen: set<string> := {};
    for i := 0 to |ids|
      invariant seen == set j | 0 <= j < i :: ids[j]
      invariant "" !in ids[..i]
      invariant Distinct(ids[..i])
    {
      if ids[i] == "" {
        return false;
      }
      if ids[i] in seen {
        var j :| 0 <= j < i && ids[j] == ids[i];
        return false;
      }
      seen := seen + {ids[i]};
      assert ids[..i + 1] == ids[..i] + [ids[i]];
    }
    assert ids[..|ids|] == ids;
    return true;
  }

  lemma SortedFacts(xs: seq<string>)
    ensures Ascending(Sorted(xs)) && multiset(Sorted(xs)) == multiset(xs)
  {
  }

  lemma {:induction false} DistinctCountsOnce(xs: seq<string>, d: string)
    requires Distinct(xs)
    ensures multiset(xs)[d] <= 1
  {
    if xs != [] {
      var n := |xs| - 1;
      DistinctCountsOnce(xs[..n], d);
      assert xs == xs[..n] + [xs[n]];
      assert xs[n] !in xs[..n];
      assert multiset(xs[..n])[xs[n]] == 0;
    }
  }

  lemma SortedDevices(devices: seq<string>)
    requires Distinct(devices)
    ensures Ascending(Sorted(devices)) && forall d :: multiset(Sorted(devices))[d] <= 1
  {
    forall d ensures multiset(Sorted(devices))[d] <= 1 {
      DistinctCountsOnce(devices, d);
      assert multiset(Sorted(devices)) == multiset(devices);
    }
  }

  // -- At the gate -------------------------------------------------------------------

  /** What the issuer cannot settle in advance: the controller's state, the proof and the challenge. */
  ghost predicate RestHolds(pe: Pending, g: Grant, p: Proof, env: Env, c: Crypto) {
    && env.lastGatewaySync != 0 && env.lastGatewaySync <= env.now <= env.lastGatewaySync + 1_209_600
    && !env.lockdown
    && c.verifies(env.gatewayKey, pe.grant.text)
    && p.accessPoint == pe.accessPoint && p.grantId == g.grantId
    && c.isKey(g.appPubkey) && c.verifies(g.appPubkey, p.text)
    && env.now <= pe.challenge.exp
    && -90 <= p.ts - env.now <= 90
  }

  /** This controller serves one of the requested access points, whichever the proof names. */
  ghost predicate ServesSome(dir: Directory, aps: seq<string>, deviceId: string) {
    exists i :: 0 <= i < |aps| && aps[i] in dir.sites && dir.sites[aps[i]].deviceId == deviceId
  }

  /**
   * An issued grant opens exactly when the proof names a requested access
   * point, the controller serves some requested one, the grant is alive and
   * the rest holds. Device and access point are checked each on its own: a
   * controller opens for a requested access point that another one serves.
   */
  lemma IssuedGrantOpensExactly(dir: Directory, req: Request, g: Grant, t: Tables, p: Proof, env: Env, c: Crypto)
    requires Entitled(dir, req) && Covers(g, dir, req.accessPoints)
    requires g.windows == [Window("mon-sun", "00:00", "24:00")] && g.exp == g.iat + 604_800
    requires p.cnonce in t.pending && t.pending[p.cnonce].grant.parsed == Some(g)
    ensures Decide(t, p, env, c).Opened? <==>
            && p.accessPoint in req.accessPoints
            && ServesSome(dir, req.accessPoints, env.deviceId)
            && g.iat - 90 <= env.now <= g.iat + 604_890
            && RestHolds(t.pending[p.cnonce], g, p, env, c)
  {
    hide Ascending, Decide, Open;
    OpensIffConforms(t, p, env, c);
    EveryDayIsAlwaysOpen(env.now);
    assert env.deviceId in g.devices <==> ServesSome(dir, req.accessPoints, env.deviceId);
    assert p.accessPoint in g.accessPoints <==> p.accessPoint in req.accessPoints;
    if ServesSome(dir, req.accessPoints, env.deviceId) {
      DevicesAreNamed(dir, req, env.deviceId);
    }
  }

  /** No access point of a request that is entitled is served by the device without a name. */
  lemma DevicesAreNamed(dir: Directory, req: Request, deviceId: string)
    requires Entitled(dir, req) && ServesSome(dir, req.accessPoints, deviceId)
    ensures deviceId != ""
  {
    var aps := req.accessPoints;
    var i :| 0 <= i < |aps| && aps[i] in dir.sites && dir.sites[aps[i]].deviceId == deviceId;
    assert aps[i] in aps && Granted(dir, req.user, aps[i]);
  }
}
