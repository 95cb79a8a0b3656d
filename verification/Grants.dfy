/**
 * Offline grant redemption: the table of issued challenges and the
 * fail-closed decision on a proof. Signatures are uninterpreted predicates;
 * a call of HandleProof is one serialised step.
 */
module Grants {
  import opened Common
  import opened Windows
  import opened Checklist

  const CLOCK_SKEW := 90
  const CNONCE_TTL := 30
  const STALE_LIMIT := 1209600

  datatype Reason =
    | BadSig | StaleClock | Lockdown | CnonceReplay | CnonceUnknown | NotYetValid | Expired
    | WrongDevice | WrongAccessPoint | OutsideWindow | WrongGrant | CnonceExpired

  datatype Grant = Grant(
    grantId: string,
    appPubkey: string,
    devices: seq<string>,
    accessPoints: seq<string>,
    windows: seq<Window>,
    iat: int,
    exp: int)

  /** A grant as presented: its bytes, and what they parse to. */
  datatype RawGrant = RawGrant(text: string, parsed: Option<Grant>)

  datatype OpenMsg = OpenMsg(grant: RawGrant, accessPoint: string)

  datatype Proof = Proof(text: string, grantId: string, cnonce: string, accessPoint: string, ts: int)

  datatype Challenge = Challenge(cnonce: string, iat: int, exp: int)

  datatype Env = Env(now: int, lastGatewaySync: int, deviceId: string, lockdown: bool, gatewayKey: string)

  /** Does `key` verify the signature carried by this text? Is `key` a well-formed public key? */
  datatype Crypto = Crypto(verifies: (string, string) -> bool, isKey: string -> bool)

  datatype Pending = Pending(grant: RawGrant, accessPoint: string, challenge: Challenge)

  datatype Tables = Tables(pending: map<string, Pending>, used: map<string, int>)

  datatype Result = Opened(grant: Grant, proof: Proof) | Denied(reason: Reason)

  /** Untrustworthy in either direction: never synced, too far ahead, or behind the last sync. */
  predicate Stale(now: int, lastSynced: int, limit: int) {
    lastSynced == 0 || now - lastSynced < 0 || now - lastSynced > limit
  }

  predicate Contains(xs: seq<string>, s: string) {
    s != "" && s in xs
  }

  // -- The decision ------------------------------------------------------------------

  /** Everything that must hold for a proof to open, in no particular order. */
  ghost predicate Conforms(t: Tables, p: Proof, env: Env, c: Crypto) {
    && env.lastGatewaySync != 0 && env.lastGatewaySync <= env.now <= env.lastGatewaySync + 1_209_600
    && !env.lockdown
    && p.cnonce in t.pending
    && var pe := t.pending[p.cnonce];
       && pe.grant.parsed.Some?
       && var g := pe.grant.parsed.value;
          && c.verifies(env.gatewayKey, pe.grant.text)
          && g.iat - 90 <= env.now <= g.exp + 90
          && env.deviceId != "" && env.deviceId in g.devices
          && p.accessPoint != "" && p.accessPoint in g.accessPoints && p.accessPoint == pe.accessPoint
          && Open(g.windows, env.now)
          && p.grantId == g.grantId
          && c.isKey(g.appPubkey) && c.verifies(g.appPubkey, p.text)
          && env.now <= pe.challenge.exp
          && -90 <= p.ts - env.now <= 90
  }

  /** The checks in the order the controller makes them; later ones are vacuous while there is no grant to check. */
  ghost function Checks(t: Tables, p: Proof, env: Env, c: Crypto): seq<Check<Reason>> {
    var known := p.cnonce in t.pending;
    var readable := known && t.pending[p.cnonce].grant.parsed.Some?;
    [ Check(!Stale(env.now, env.lastGatewaySync, STALE_LIMIT), StaleClock),
      Check(!env.lockdown, Reason.Lockdown),
      Check(known || p.cnonce !in t.used, CnonceReplay),
      Check(known, CnonceUnknown),
      Check(readable, BadSig)
    ] + if readable then GrantChecks(t.pending[p.cnonce], t.pending[p.cnonce].grant.parsed.value, p, env, c) else []
  }

  ghost function GrantChecks(pe: Pending, g: Grant, p: Proof, env: Env, c: Crypto): seq<Check<Reason>> {
    [ Check(c.verifies(env.gatewayKey, pe.grant.text), BadSig),
      Check(g.iat - CLOCK_SKEW <= env.now, NotYetValid),
      Check(env.now <= g.exp + CLOCK_SKEW, Expired),
      Check(Contains(g.devices, env.deviceId), WrongDevice),
      Check(Contains(g.accessPoints, pe.accessPoint) && p.accessPoint == pe.accessPoint, WrongAccessPoint),
      Check(Open(g.windows, env.now), OutsideWindow),
      Check(p.grantId == g.grantId, WrongGrant),
      Check(c.isKey(g.appPubkey) && c.verifies(g.appPubkey, p.text), BadSig),
      Check(env.now <= pe.challenge.exp, CnonceExpired),
      Check(env.now - CLOCK_SKEW <= p.ts, Expired),
      Check(p.ts <= env.now + CLOCK_SKEW, NotYetValid)
    ]
  }

  ghost function Decide(t: Tables, p: Proof, env: Env, c: Crypto): Result {
    match FirstFailing(Checks(t, p, env, c))
    case Some(reason) => Denied(reason)
    case None =>
      if p.cnonce in t.pending && t.pending[p.cnonce].grant.parsed.Some?
      then Opened(t.pending[p.cnonce].grant.parsed.value, p)
      else Denied(CnonceUnknown)
  }

  /** A proof opens exactly when every condition holds, whatever the order of the checks. */
  lemma OpensIffConforms(t: Tables, p: Proof, env: Env, c: Crypto)
    ensures Decide(t, p, env, c).Opened? <==> Conforms(t, p, env, c)
  {
    var checks := Checks(t, p, env, c);
    AllHold(checks);
    if p.cnonce in t.pending && t.pending[p.cnonce].grant.parsed.Some? {
      var pe := t.pending[p.cnonce];
      var rest := GrantChecks(pe, pe.grant.parsed.value, p, env, c);
      GrantChecksHoldIff(pe, pe.grant.parsed.value, p, env, c);
      HoldSplits(checks, 5);
      assert checks[2].holds && checks[3].holds && checks[4].holds;
      assert (forall j :: 0 <= j < 5 ==> checks[j].holds) <==> checks[0].holds && checks[1].holds;
    } else {
      assert !checks[3].holds || !checks[4].holds;
    }
  }

  lemma GrantChecksHoldIff(pe: Pending, g: Grant, p: Proof, env: Env, c: Crypto)
    ensures (forall j :: 0 <= j < 11 ==> GrantChecks(pe, g, p, env, c)[j].holds) <==>
            && c.verifies(env.gatewayKey, pe.grant.text)
            && g.iat - CLOCK_SKEW <= env.now <= g.exp + CLOCK_SKEW
            && Contains(g.devices, env.deviceId)
            && Contains(g.accessPoints, pe.accessPoint) && p.accessPoint == pe.accessPoint
            && Open(g.windows, env.now)
            && p.grantId == g.grantId
            && c.isKey(g.appPubkey) && c.verifies(g.appPubkey, p.text)
            && env.now <= pe.challenge.exp
            && env.now - CLOCK_SKEW <= p.ts <= env.now + CLOCK_SKEW
  {
    var cs := GrantChecks(pe, g, p, env, c);
    if forall j :: 0 <= j < 11 ==> cs[j].holds {
      assert cs[0].holds && cs[1].holds && cs[2].holds && cs[3].holds && cs[4].holds && cs[5].holds;
      assert cs[6].holds && cs[7].holds && cs[8].holds && cs[9].holds && cs[10].holds;
    }
  }

  /** Why a proof for this pending exchange is refused, if it is. */
  ghost function GrantObjection(pe: Pending, g: Grant, p: Proof, env: Env, c: Crypto): Option<Reason> {
    if !c.verifies(env.gatewayKey, pe.grant.text) then Some(BadSig)
    else if env.now < g.iat - 90 then Some(NotYetValid)
    else if g.exp + 90 < env.now then Some(Expired)
    else if env.deviceId == "" || env.deviceId !in g.devices then Some(WrongDevice)
    else if pe.accessPoint == "" || pe.accessPoint !in g.accessPoints || p.accessPoint != pe.accessPoint then
      Some(WrongAccessPoint)
    else if !Open(g.windows, env.now) then Some(OutsideWindow)
    else if p.grantId != g.grantId then Some(WrongGrant)
    else if !c.isKey(g.appPubkey) || !c.verifies(g.appPubkey, p.text) then Some(BadSig)
    else if pe.challenge.exp < env.now then Some(CnonceExpired)
    else if p.ts < env.now - 90 then Some(Expired)
    else if env.now + 90 < p.ts then Some(NotYetValid)
    else None
  }

  /** Why a proof is refused, if it is: the clock, the lock, the cnonce, and then the grant it was issued for. */
  ghost function Objection(t: Tables, p: Proof, env: Env, c: Crypto): Option<Reason> {
    if env.lastGatewaySync == 0 || env.now < env.lastGatewaySync || env.lastGatewaySync + 1_209_600 < env.now then
      Some(StaleClock)
    else if env.lockdown then Some(Reason.Lockdown)
    else if p.cnonce !in t.pending then Some(if p.cnonce in t.used then CnonceReplay else CnonceUnknown)
    else if t.pending[p.cnonce].grant.parsed.None? then Some(BadSig)
    else GrantObjection(t.pending[p.cnonce], t.pending[p.cnonce].grant.parsed.value, p, env, c)
  }

  lemma GrantObjectionIsFirst(pe: Pending, g: Grant, p: Proof, env: Env, c: Crypto)
    ensures FirstFailing(GrantChecks(pe, g, p, env, c)) == GrantObjection(pe, g, p, env, c)
  {
    hide FirstFailing, Open;
    var cs := GrantChecks(pe, g, p, env, c);
    var i := if !cs[0].holds then 0 else if !cs[1].holds then 1 else if !cs[2].holds then 2
             else if !cs[3].holds then 3 else if !cs[4].holds then 4 else if !cs[5].holds then 5
             else if !cs[6].holds then 6 else if !cs[7].holds then 7 else if !cs[8].holds then 8
             else if !cs[9].holds then 9 else if !cs[10].holds then 10 else 11;
    FirstFailingIsFirst(cs, i);
  }

  /** The decision, with its reason, for any tables, proof, clock and keys. */
  lemma DeniesForTheObjection(t: Tables, p: Proof, env: Env, c: Crypto)
    ensures Decide(t, p, env, c)
            == match Objection(t, p, env, c)
               case Some(reason) => Denied(reason)
               case None => Opened(t.pending[p.cnonce].grant.parsed.value, p)
  {
    var cs := Checks(t, p, env, c);
    var i := if !cs[0].holds then 0 else if !cs[1].holds then 1 else if !cs[2].holds then 2
             else if !cs[3].holds then 3 else if !cs[4].holds then 4 else 5;
    if i < 5 {
      hide FirstFailing;
      FirstFailingIsFirst(cs, i);
    } else {
      var pe := t.pending[p.cnonce];
      GrantObjectionIsFirst(pe, pe.grant.parsed.value, p, env, c);
      hide FirstFailing, GrantObjection;
      FailsInRest(cs, 5);
    }
  }

  // -- The tables ---------------------------------------------------------------------

  function Collect(t: Tables, now: int): Tables {
    Tables(map cn | cn in t.pending && now <= t.pending[cn].challenge.exp + CLOCK_SKEW :: t.pending[cn],
           map cn | cn in t.used && now <= t.used[cn] :: t.used[cn])
  }

  /** Issues a challenge for a well-formed open; `cnonce` is None when the random source fails. */
  function AfterOpen(t: Tables, o: Option<OpenMsg>, env: Env, cnonce: Option<string>): (Tables, Option<Challenge>) {
    if o.None? || cnonce.None? then (t, None) else
    var ch := Challenge(cnonce.value, env.now, env.now + CNONCE_TTL);
    var kept := Collect(t, env.now);
    (kept.(pending := kept.pending[cnonce.value := Pending(o.value.grant, o.value.accessPoint, ch)]), Some(ch))
  }

  /** Exactly the entries alive are left, unchanged: until 90 s past a challenge's end, or a used cnonce's time. */
  ghost predicate OnlyLiving(t: Tables, now: int, t': Tables) {
    && (forall cn :: cn in t'.pending <==> cn in t.pending && now <= t.pending[cn].challenge.exp + 90)
    && (forall cn :: cn in t'.pending ==> t'.pending[cn] == t.pending[cn])
    && (forall cn :: cn in t'.used <==> cn in t.used && now <= t.used[cn])
    && (forall cn :: cn in t'.used ==> t'.used[cn] == t.used[cn])
  }

  lemma CollectsTheDead(t: Tables, now: int)
    ensures OnlyLiving(t, now, Collect(t, now))
  {
  }

  /** The challenge is pending with the grant and access point it was asked for, beside the entries still alive. */
  ghost predicate Registered(t: Tables, o: OpenMsg, now: int, ch: Challenge, t': Tables) {
    && ch.cnonce in t'.pending && t'.pending[ch.cnonce] == Pending(o.grant, o.accessPoint, ch)
    && (forall cn :: cn != ch.cnonce ==>
          && (cn in t'.pending <==> cn in t.pending && now <= t.pending[cn].challenge.exp + 90)
          && (cn in t'.pending ==> t'.pending[cn] == t.pending[cn]))
    && (forall cn :: cn in t'.used <==> cn in t.used && now <= t.used[cn])
    && (forall cn :: cn in t'.used ==> t'.used[cn] == t.used[cn])
  }

  /** A malformed proof is None. */
  ghost function AfterProof(t: Tables, p: Option<Proof>, env: Env, c: Crypto): (Tables, Result) {
    if p.None? then (t, Denied(BadSig)) else
    var r := Decide(t, p.value, env, c);
    if r.Denied? || p.value.cnonce !in t.pending then (t, r)
    else (Tables(t.pending - {p.value.cnonce},
                 t.used[p.value.cnonce := t.pending[p.value.cnonce].challenge.exp + CLOCK_SKEW]), r)
  }

  lemma OpensAreRegistered(t: Tables, o: OpenMsg, env: Env, cnonce: string)
    ensures var (t', ch) := AfterOpen(t, Some(o), env, Some(cnonce));
            ch == Some(Challenge(cnonce, env.now, env.now + 30)) && Registered(t, o, env.now, ch.value, t')
  {
  }

  class Exchange {
    var pending: map<string, Pending>
    var used: map<string, int>

    ghost function State(): Tables
      reads this
    {
      Tables(pending, used)
    }

    constructor ()
      ensures State() == Tables(map[], map[])
    {
      pending, used := map[], map[];
    }

    method Gc(now: int)
      modifies this
      ensures OnlyLiving(old(State()), now, State())
      ensures State() == Collect(old(State()), now)
    {
      hide OnlyLiving;
      var todo := pending.Keys;
      while todo != {}
        invariant used == old(used) && todo <= pending.Keys <= old(pending).Keys
        invariant forall cn :: cn in old(pending) && cn !in pending ==>
                    cn !in todo && now > old(pending)[cn].challenge.exp + CLOCK_SKEW
        invariant forall cn :: cn in pending ==>
                    pending[cn] == old(pending)[cn] && (cn in todo || now <= pending[cn].challenge.exp + CLOCK_SKEW)
        decreases todo
      {
        var cn :| cn in todo;
        if now > pending[cn].challenge.exp + CLOCK_SKEW {
          pending := pending - {cn};
        }
        todo := todo - {cn};
      }
      todo := used.Keys;
      while todo != {}
        invariant pending == Collect(old(State()), now).pending && todo <= used.Keys <= old(used).Keys
        invariant forall cn :: cn in old(used) && (cn in todo || now <= old(used)[cn]) ==> cn in used
        invariant forall cn :: cn in used ==> used[cn] == old(used)[cn] && (cn in todo || now <= used[cn])
        decreases todo
      {
        var cn :| cn in todo;
        if now > used[cn] {
          used := used - {cn};
        }
        todo := todo - {cn};
      }
      assert State() == Collect(old(State()), now);
      CollectsTheDead(old(State()), now);
    }

    method HandleOpen(o: Option<OpenMsg>, env: Env, cnonce: Option<string>) returns (ch: Option<Challenge>)
      modifies this
      ensures ch == (if o.None? || cnonce.None? then None else Some(Challenge(cnonce.value, env.now, env.now + 30)))
      ensures ch.None? ==> State() == old(State())
      ensures ch.Some? ==> Registered(old(State()), o.value, env.now, ch.value, State())
      ensures (State(), ch) == AfterOpen(old(State()), o, env, cnonce)
    {
      if o.None? || cnonce.None? {
        return None;
      }
      var c := Challenge(cnonce.value, env.now, env.now + CNONCE_TTL);
      Gc(env.now);
      pending := pending[cnonce.value := Pending(o.value.grant, o.value.accessPoint, c)];
      return Some(c);
    }

    /** The checks on the grant of a pending exchange, first failure wins. */
    method CheckGrant(pe: Pending, g: Grant, p: Proof, env: Env, c: Crypto) returns (denial: Option<Reason>)
      ensures denial == GrantObjection(pe, g, p, env, c)
    {
      hide Open;
      var inWindow := InAnyWindow(g.windows, env.now);
      if !c.verifies(env.gatewayKey, pe.grant.text) { return Some(BadSig); }
      if env.now < g.iat - CLOCK_SKEW { return Some(NotYetValid); }
      if env.now > g.exp + CLOCK_SKEW { return Some(Expired); }
      if !Contains(g.devices, env.deviceId) { return Some(WrongDevice); }
      if !Contains(g.accessPoints, pe.accessPoint) || p.accessPoint != pe.accessPoint {
        return Some(WrongAccessPoint);
      }
      if !inWindow { return Some(OutsideWindow); }
      if p.grantId != g.grantId { return Some(WrongGrant); }
      if !c.isKey(g.appPubkey) { return Some(BadSig); }
      if !c.verifies(g.appPubkey, p.text) { return Some(BadSig); }
      if env.now > pe.challenge.exp { return Some(CnonceExpired); }
      if p.ts < env.now - CLOCK_SKEW { return Some(Expired); }
      if p.ts > env.now + CLOCK_SKEW { return Some(NotYetValid); }
      return None;
    }

    method HandleProof(proof: Option<Proof>, env: Env, c: Crypto) returns (r: Result)
      modifies this
      ensures proof.None? ==> r == Denied(BadSig) && State() == old(State())
      ensures proof.Some? ==> Handled(old(State()), proof.value, env, c, State(), r)
      ensures (State(), r) == AfterProof(old(State()), proof, env, c)
    {
      if proof.None? {
        return Denied(BadSig);
      }
      ghost var t := State();
      r := Redeem(proof.value, env, c);
      HandledIsTheStep(t, proof.value, env, c, State(), r);
    }

    method Redeem(p: Proof, env: Env, c: Crypto) returns (r: Result)
      modifies this
      ensures Handled(old(State()), p, env, c, State(), r)
    {
      hide GrantObjection;
      if Stale(env.now, env.lastGatewaySync, STALE_LIMIT) { return Denied(StaleClock); }
      if env.lockdown { return Denied(Reason.Lockdown); }
      if p.cnonce !in pending {
        if p.cnonce in used {
          return Denied(CnonceReplay);
        }
        return Denied(CnonceUnknown);
      }
      var pe := pending[p.cnonce];
      if pe.grant.parsed.None? { return Denied(BadSig); }
      var g := pe.grant.parsed.value;
      var denial := CheckGrant(pe, g, p, env, c);
      if denial.Some? {
        return Denied(denial.value);
      }
      used := used[p.cnonce := pe.challenge.exp + CLOCK_SKEW];
      pending := pending - {p.cnonce};
      return Opened(g, p);
    }
  }

  /**
   * A proof is denied for the first objection to it, and nothing changes; one
   * that opens moves its cnonce from the pending to the used ones, until 90 s
   * past its challenge's end.
   */
  ghost predicate Handled(t: Tables, p: Proof, env: Env, c: Crypto, t': Tables, r: Result) {
    match Objection(t, p, env, c)
    case Some(reason) => r == Denied(reason) && t' == t
    case None =>
      && r == Opened(t.pending[p.cnonce].grant.parsed.value, p)
      && t' == Tables(t.pending - {p.cnonce}, t.used[p.cnonce := t.pending[p.cnonce].challenge.exp + 90])
  }

  lemma ProofsAreHandled(t: Tables, p: Proof, env: Env, c: Crypto)
    ensures var (t', r) := AfterProof(t, Some(p), env, c);
            && Handled(t, p, env, c, t', r)
            && (Objection(t, p, env, c).Some? ==> r == Denied(Objection(t, p, env, c).value) && t' == t)
            && (Objection(t, p, env, c).None? ==>
                  p.cnonce in t.pending && t.pending[p.cnonce].grant.parsed.Some?
                  && r == Opened(t.pending[p.cnonce].grant.parsed.value, p))
  {
    DeniesForTheObjection(t, p, env, c);
    hide Decide, GrantObjection;
  }

  lemma HandledIsTheStep(t: Tables, p: Proof, env: Env, c: Crypto, t': Tables, r: Result)
    requires Handled(t, p, env, c, t', r)
    ensures (t', r) == AfterProof(t, Some(p), env, c)
  {
    DeniesForTheObjection(t, p, env, c);
    hide Decide, GrantObjection;
  }

  // -- Runs ----------------------------------------------------------------------------

  datatype Event =
    | DoOpen(o: Option<OpenMsg>, env: Env, cnonce: Option<string>)
    | DoProof(p: Option<Proof>, env: Env)

  /** `issued` are all challenges handed out so far, `openings` every cnonce that opened, as often as it did. */
  datatype Run = Run(tables: Tables, issued: set<string>, openings: multiset<string>)

  const START := Run(Tables(map[], map[]), {}, multiset{})

  /** One serialised call. Random cnonces do not repeat: an event that would reuse one does nothing. */
  ghost function Next(s: Run, e: Event, c: Crypto): Run {
    match e
    case DoOpen(o, env, cnonce) =>
      if cnonce.Some? && cnonce.value in s.issued then s
      else
        var (t, ch) := AfterOpen(s.tables, o, env, cnonce);
        Run(t, if ch.Some? then s.issued + {ch.value.cnonce} else s.issued, s.openings)
    case DoProof(p, env) =>
      var (t, r) := AfterProof(s.tables, p, env, c);
      Run(t, s.issued, if r.Opened? then s.openings + multiset{r.proof.cnonce} else s.openings)
  }

  ghost function After(s: Run, es: seq<Event>, c: Crypto): Run {
    if es == [] then s else Next(After(s, es[..|es| - 1], c), es[|es| - 1], c)
  }

  ghost function Exec(es: seq<Event>, c: Crypto): Run {
    After(START, es, c)
  }

  ghost predicate Inv(s: Run) {
    && s.tables.pending.Keys <= s.issued
    && forall cn :: cn in s.openings ==> s.openings[cn] == 1 && cn in s.issued && cn !in s.tables.pending
  }

  lemma NextKeepsInv(s: Run, e: Event, c: Crypto)
    requires Inv(s)
    ensures Inv(Next(s, e, c))
  {
    if e.DoProof? && e.p.Some? {
      OpensIffConforms(s.tables, e.p.value, e.env, c);
    }
  }

  /** Whatever garbage collection removes and whatever the clock does, each cnonce opens at most once. */
  lemma {:induction false} EachCnonceOpensOnce(es: seq<Event>, c: Crypto, cn: string)
    ensures Exec(es, c).openings[cn] <= 1
    ensures Inv(Exec(es, c))
  {
    if es != [] {
      EachCnonceOpensOnce(es[..|es| - 1], c, cn);
      NextKeepsInv(Exec(es[..|es| - 1], c), es[|es| - 1], c);
    }
  }

  /** A denial leaves both tables as they were; an opening moves exactly its cnonce from pending to used. */
  lemma ProofTouchesOnlyItsCnonce(t: Tables, p: Proof, env: Env, c: Crypto)
    ensures var (t', r) := AfterProof(t, Some(p), env, c);
            && (r.Denied? ==> t' == t)
            && (r.Opened? ==> r.proof == p && p.cnonce in t.pending && p.cnonce !in t'.pending && p.cnonce in t'.used)
            && (forall cn :: cn != p.cnonce ==>
                  && (cn in t'.pending <==> cn in t.pending) && (cn in t.pending ==> t'.pending[cn] == t.pending[cn])
                  && (cn in t'.used <==> cn in t.used) && (cn in t.used ==> t'.used[cn] == t.used[cn]))
  {
    OpensIffConforms(t, p, env, c);
  }

  // -- A challenge lasts --------------------------------------------------------------------

  /** The message is handled within the life of a challenge that ends at `exp`, and is no proof for its cnonce. */
  ghost predicate LeavesAlone(e: Event, cn: string, exp: int) {
    match e
    case DoOpen(_, env, _) => env.now <= exp + 90
    case DoProof(p, _) => p.Some? ==> p.value.cnonce != cn
  }

  lemma OtherEventKeeps(s: Run, e: Event, c: Crypto, cn: string)
    requires cn in s.tables.pending && cn in s.issued && LeavesAlone(e, cn, s.tables.pending[cn].challenge.exp)
    ensures var s' := Next(s, e, c);
            cn in s'.issued && cn in s'.tables.pending && s'.tables.pending[cn] == s.tables.pending[cn]
  {
    hide Decide;
  }

  lemma {:induction false} OthersKeep(s: Run, es: seq<Event>, c: Crypto, cn: string)
    requires cn in s.tables.pending && cn in s.issued
    requires forall e :: e in es ==> LeavesAlone(e, cn, s.tables.pending[cn].challenge.exp)
    ensures var s' := After(s, es, c);
            cn in s'.issued && cn in s'.tables.pending && s'.tables.pending[cn] == s.tables.pending[cn]
  {
    if es != [] {
      var prefix, e := es[..|es| - 1], es[|es| - 1];
      assert e in es && forall x :: x in prefix ==> x in es;
      hide Next, LeavesAlone;
      OthersKeep(s, prefix, c, cn);
      OtherEventKeeps(After(s, prefix, c), e, c, cn);
    }
  }

  /**
   * Other phones do not get in the way: after any opens within its time, and
   * any proofs for other cnonces, a challenge opens with exactly the proofs
   * it would open with if it were the only one.
   */
  lemma ChallengeSurvivesOthers(s: Run, o: OpenMsg, env: Env, cn: string, es: seq<Event>, p: Proof, at: Env, c: Crypto)
    requires cn !in s.issued && p.cnonce == cn
    requires forall e :: e in es ==> LeavesAlone(e, cn, env.now + 30)
    ensures var s' := After(Next(s, DoOpen(Some(o), env, Some(cn)), c), es, c);
            var pe := Pending(o.grant, o.accessPoint, Challenge(cn, env.now, env.now + 30));
            var alone := Tables(map[cn := pe], map[]);
            Decide(s'.tables, p, at, c).Opened? <==> Conforms(alone, p, at, c)
  {
    var issued := Next(s, DoOpen(Some(o), env, Some(cn)), c);
    OthersKeep(issued, es, c, cn);
    hide Next, Decide;
    OpensIffConforms(After(issued, es, c).tables, p, at, c);
  }
}
