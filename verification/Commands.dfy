/**
 * Verification of signed command envelopes, and replay over whole runs of
 * deliveries and restarts. Signatures are an uninterpreted predicate; times
 * are 64-bit and their arithmetic wraps as the machine's does.
 */
module Commands {
  import opened Common
  import opened Checklist
  import opened NonceStore

  const CLOCK_SKEW := 90
  const MAX_WINDOW := 60
  const TWO63 := 0x8000_0000_0000_0000

  type int64 = x: int | -0x8000_0000_0000_0000 <= x < 0x8000_0000_0000_0000

  function Wrap(x: int): int64 {
    (x + TWO63) % (2 * TWO63) - TWO63
  }

  datatype Value = Number(n: int64) | Text(s: string) | Other

  datatype Command = Command(
    cmd: string,
    deviceId: string,
    accessPoint: string,
    nonce: string,
    iat: int64,
    exp: int64,
    payload: map<string, Value>)

  /** An envelope as delivered: its bytes, and what they parse to. */
  datatype Envelope = Envelope(text: string, parsed: Option<Command>)

  datatype Context = Context(now: int64, deviceId: string, accessPoints: seq<string>, lockdown: bool, key: string)

  datatype Reason =
    BadSig | WrongDevice | WrongAccessPoint | WindowTooLong | NotYetValid | Expired | Replay | Lockdown

  datatype Verdict = Accepted(command: Command) | Rejected(reason: Reason)

  type Verifies = (string, string) -> bool

  predicate NeedsAccessPoint(cmd: string) {
    cmd in {"open", "hold", "close"}
  }

  predicate LockdownAllows(cmd: string) {
    cmd in {"lift", "ping", "config", "repair"}
  }

  function KeepUntil(c: Command): int64 {
    Wrap(c.exp + CLOCK_SKEW)
  }

  // -- The decision ------------------------------------------------------------------

  /** The validity window as the controller computes it. */
  predicate Timely(iat: int64, exp: int64, now: int64) {
    && iat <= exp && Wrap(exp - iat) <= MAX_WINDOW
    && Wrap(iat - CLOCK_SKEW) <= now <= Wrap(exp + CLOCK_SKEW)
  }

  /** The validity window as designed. */
  predicate InWindow(iat: int, exp: int, now: int) {
    && 0 <= exp - iat <= 60
    && iat - 90 <= now <= exp + 90
  }

  /** An input the design refuses and the computed check passes. */
  lemma FarApartIsTimely()
    ensures Timely(-0x4000_0000_0000_0000, 0x4000_0000_0000_0000, 0)
    ensures !InWindow(-0x4000_0000_0000_0000, 0x4000_0000_0000_0000, 0)
  {
  }

  lemma WrapIsExact(x: int)
    ensures Wrap(x) == x <==> -TWO63 <= x < TWO63
    ensures TWO63 <= x < 3 * TWO63 ==> Wrap(x) == x - 2 * TWO63
    ensures -3 * TWO63 <= x < -TWO63 ==> Wrap(x) == x + 2 * TWO63
  {
  }

  /**
   * Whenever issue and expiry are less than 2^63 seconds apart, the computed
   * window lies inside the designed one, and is the designed one unless a
   * bound itself leaves the 64-bit range (then nothing is accepted). Farther
   * apart the difference wraps, and the length check no longer binds.
   */
  lemma WindowCheckIsExact(iat: int64, exp: int64, now: int64)
    ensures var inRange := -TWO63 <= iat - CLOCK_SKEW && exp + CLOCK_SKEW < TWO63;
            && (exp - iat < TWO63 ==> (Timely(iat, exp, now) <==> inRange && InWindow(iat, exp, now)))
            && (exp - iat >= TWO63 ==>
                  !InWindow(iat, exp, now)
                  && (Timely(iat, exp, now) <==> Wrap(iat - CLOCK_SKEW) <= now <= Wrap(exp + CLOCK_SKEW)))
  {
    WrapIsExact(exp - iat);
    WrapIsExact(iat - CLOCK_SKEW);
    WrapIsExact(exp + CLOCK_SKEW);
  }

  /** Everything acceptance requires, in no particular order. */
  ghost predicate Conforms(e: Envelope, ctx: Context, s: Held, persists: bool, verifies: Verifies) {
    && e.parsed.Some? && verifies(ctx.key, e.text)
    && var c := e.parsed.value;
       && c.deviceId == ctx.deviceId
       && (c.cmd in {"open", "hold", "close"} ==> c.accessPoint != "" && c.accessPoint in ctx.accessPoints)
       && Timely(c.iat, c.exp, ctx.now)
       && c.nonce != "" && c.nonce !in s.memory
       && (ctx.lockdown ==> c.cmd in {"lift", "ping", "config", "repair"})
       && |set n | n in s.memory && ctx.now <= s.memory[n]| < 1024 && persists
  }

  /** The checks on a parsed envelope, in the controller's order. */
  ghost function Checks(c: Command, text: string, ctx: Context, m: map<string, int>, verifies: Verifies)
    : seq<Check<Reason>>
  {
    [ Check(verifies(ctx.key, text), BadSig),
      Check(c.deviceId == ctx.deviceId, WrongDevice),
      Check(NeedsAccessPoint(c.cmd) ==> c.accessPoint != "" && c.accessPoint in ctx.accessPoints, WrongAccessPoint),
      Check(c.iat <= c.exp && Wrap(c.exp - c.iat) <= MAX_WINDOW, WindowTooLong),
      Check(Wrap(c.iat - CLOCK_SKEW) <= ctx.now, NotYetValid),
      Check(ctx.now <= Wrap(c.exp + CLOCK_SKEW), Expired),
      Check(c.nonce != "" && c.nonce !in m, Replay),
      Check(ctx.lockdown ==> LockdownAllows(c.cmd), Lockdown)
    ]
  }

  /** Why an envelope is refused before it reaches the store, if it is. The times are machine integers. */
  ghost function Grounds(c: Command, text: string, ctx: Context, m: map<string, int>, verifies: Verifies)
    : Option<Reason>
  {
    if !verifies(ctx.key, text) then Some(BadSig)
    else if c.deviceId != ctx.deviceId then Some(WrongDevice)
    else if c.cmd in {"open", "hold", "close"} && (c.accessPoint == "" || c.accessPoint !in ctx.accessPoints) then
      Some(WrongAccessPoint)
    else if c.exp < c.iat || 60 < Wrap(c.exp - c.iat) then Some(WindowTooLong)
    else if ctx.now < Wrap(c.iat - 90) then Some(NotYetValid)
    else if Wrap(c.exp + 90) < ctx.now then Some(Expired)
    else if c.nonce == "" || c.nonce in m then Some(Replay)
    else if ctx.lockdown && c.cmd !in {"lift", "ping", "config", "repair"} then Some(Lockdown)
    else None
  }

  lemma GroundsAreFirst(c: Command, text: string, ctx: Context, m: map<string, int>, verifies: Verifies)
    ensures FirstFailing(Checks(c, text, ctx, m, verifies)) == Grounds(c, text, ctx, m, verifies)
  {
    hide FirstFailing, Wrap;
    var cs := Checks(c, text, ctx, m, verifies);
    var i := if !cs[0].holds then 0 else if !cs[1].holds then 1 else if !cs[2].holds then 2
             else if !cs[3].holds then 3 else if !cs[4].holds then 4 else if !cs[5].holds then 5
             else if !cs[6].holds then 6 else if !cs[7].holds then 7 else 8;
    FirstFailingIsFirst(cs, i);
  }

  /** Only an envelope that passes every check reaches the store; if it cannot be recorded there it is refused. */
  ghost function AfterVerify(e: Envelope, ctx: Context, s: Held, persists: bool, verifies: Verifies): (Held, Verdict) {
    if e.parsed.None? then (s, Rejected(BadSig))
    else
      var c := e.parsed.value;
      match FirstFailing(Checks(c, e.text, ctx, s.memory, verifies))
      case Some(reason) => (s, Rejected(reason))
      case None =>
        var (s', r) := AfterMark(s, c.nonce, KeepUntil(c), ctx.now, persists);
        (s', if r == Marked then Accepted(c) else Rejected(Replay))
  }

  /** An envelope is accepted exactly when every condition holds, whatever the order of the checks. */
  lemma AcceptsIffConforms(e: Envelope, ctx: Context, s: Held, persists: bool, verifies: Verifies)
    ensures AfterVerify(e, ctx, s, persists, verifies).1.Accepted? <==> Conforms(e, ctx, s, persists, verifies)
  {
    if e.parsed.Some? {
      var c := e.parsed.value;
      NoObjectionIff(c, e.text, ctx, s.memory, verifies);
      assert c.nonce !in s.memory ==> c.nonce !in Live(s.memory, ctx.now);
      assert (set n | n in s.memory && ctx.now <= s.memory[n]) == Live(s.memory, ctx.now).Keys;
    }
  }

  lemma NoObjectionIff(c: Command, text: string, ctx: Context, m: map<string, int>, verifies: Verifies)
    ensures FirstFailing(Checks(c, text, ctx, m, verifies)).None? <==>
            && verifies(ctx.key, text)
            && c.deviceId == ctx.deviceId
            && (NeedsAccessPoint(c.cmd) ==> c.accessPoint != "" && c.accessPoint in ctx.accessPoints)
            && Timely(c.iat, c.exp, ctx.now)
            && c.nonce != "" && c.nonce !in m
            && (ctx.lockdown ==> LockdownAllows(c.cmd))
  {
    var cs := Checks(c, text, ctx, m, verifies);
    AllHold(cs);
    if forall j :: 0 <= j < 8 ==> cs[j].holds {
      assert cs[0].holds && cs[1].holds && cs[2].holds && cs[3].holds;
      assert cs[4].holds && cs[5].holds && cs[6].holds && cs[7].holds;
    }
  }

  method Serves(accessPoints: seq<string>, ap: string) returns (served: bool)
    ensures served <==> ap != "" && ap in accessPoints
  {
    for i := 0 to |accessPoints|
      invariant ap == "" || ap !in accessPoints[..i]
    {
      if accessPoints[i] == ap && ap != "" {
        return true;
      }
    }
    return false;
  }

  /** What the envelope itself can be refused for, first failure wins. */
  method Objection(c: Command, text: string, ctx: Context, nonces: Store, verifies: Verifies)
    returns (o: Option<Reason>)
    ensures o == Grounds(c, text, ctx, nonces.m, verifies)
  {
    hide Wrap;
    if !verifies(ctx.key, text) { return Some(BadSig); }
    if c.deviceId != ctx.deviceId { return Some(WrongDevice); }
    if NeedsAccessPoint(c.cmd) {
      var served := Serves(ctx.accessPoints, c.accessPoint);
      if !served { return Some(WrongAccessPoint); }
    }
    if c.iat > c.exp || Wrap(c.exp - c.iat) > MAX_WINDOW { return Some(WindowTooLong); }
    if ctx.now < Wrap(c.iat - CLOCK_SKEW) { return Some(NotYetValid); }
    if ctx.now > Wrap(c.exp + CLOCK_SKEW) { return Some(Expired); }
    var seen := nonces.Seen(c.nonce);
    if c.nonce == "" || seen { return Some(Replay); }
    if ctx.lockdown && !LockdownAllows(c.cmd) { return Some(Lockdown); }
    return None;
  }

  /**
   * The verdict on an envelope. Past all checks its nonce is recorded until
   * 90 s after its expiry; where that fails it is refused as a replay.
   */
  method Verify(e: Envelope, ctx: Context, nonces: Store, persists: bool, verifies: Verifies) returns (v: Verdict)
    modifies nonces
    ensures e.parsed.None? ==> v == Rejected(BadSig) && nonces.State() == old(nonces.State())
    ensures e.parsed.Some? ==> VerifiedAsDue(e, ctx, old(nonces.State()), persists, verifies, nonces.State(), v)
    ensures (nonces.State(), v) == AfterVerify(e, ctx, old(nonces.State()), persists, verifies)
  {
    hide FirstFailing, AfterMark, Checks, Grounds;
    if e.parsed.None? {
      return Rejected(BadSig);
    }
    var c := e.parsed.value;
    GroundsAreFirst(c, e.text, ctx, nonces.m, verifies);
    var objection := Objection(c, e.text, ctx, nonces, verifies);
    if objection.Some? {
      return Rejected(objection.value);
    }
    RecordingIsAsDue(nonces.State(), c, ctx.now, persists);
    var marked := nonces.Mark(c.nonce, KeepUntil(c), ctx.now, persists);
    return if marked == Marked then Accepted(c) else Rejected(Replay);
  }

  ghost predicate VerifiedAsDue(e: Envelope, ctx: Context, s: Held, persists: bool, verifies: Verifies,
                                s': Held, v: Verdict)
    requires e.parsed.Some?
  {
    var c := e.parsed.value;
    match Grounds(c, e.text, ctx, s.memory, verifies)
    case Some(reason) => v == Rejected(reason) && s' == s
    case None => RecordedAsDue(s, c, ctx.now, persists, s', v)
  }

  /** Expired nonces are forgotten; the new one is held in memory and file, unless the store is full or not written. */
  ghost predicate RecordedAsDue(s: Held, c: Command, now: int64, persists: bool, s': Held, v: Verdict) {
    var live := set n | n in s.memory && now <= s.memory[n];
    var others := map n | n in s.memory && n != c.nonce && now <= s.memory[n] :: s.memory[n];
    if persists && (c.nonce in live || |live| < 1024) then
      v == Accepted(c) && s'.memory == others[c.nonce := Wrap(c.exp + 90)] && s'.disk == s'.memory
    else
      v == Rejected(Replay) && s'.disk == s.disk && s'.memory - {c.nonce} == others
  }

  lemma RecordingIsAsDue(s: Held, c: Command, now: int64, persists: bool)
    ensures var (s', r) := AfterMark(s, c.nonce, KeepUntil(c), now, persists);
            RecordedAsDue(s, c, now, persists, s', if r == Marked then Accepted(c) else Rejected(Replay))
  {
    var live := Live(s.memory, now);
    assert (set n | n in s.memory && now <= s.memory[n]) == live.Keys;
    assert (map n | n in s.memory && n != c.nonce && now <= s.memory[n] :: s.memory[n]) == live - {c.nonce};
    hide Wrap;
  }

  // -- Runs ----------------------------------------------------------------------------

  datatype Event =
    | Deliver(e: Envelope, ctx: Context, persists: bool)
    | Restart

  datatype Admission = Admission(command: Command, at: int64)

  datatype Run = Run(nonces: Held, admitted: seq<Admission>)

  const BOOT := Run(Held(map[], map[]), [])

  ghost function Next(s: Run, e: Event, verifies: Verifies): Run {
    match e
    case Restart => s.(nonces := Held(s.nonces.disk, s.nonces.disk))
    case Deliver(env, ctx, persists) =>
      var (nonces, v) := AfterVerify(env, ctx, s.nonces, persists, verifies);
      Run(nonces, if v.Accepted? then s.admitted + [Admission(v.command, ctx.now)] else s.admitted)
  }

  ghost function After(s: Run, es: seq<Event>, verifies: Verifies): Run {
    if es == [] then s else Next(After(s, es[..|es| - 1], verifies), es[|es| - 1], verifies)
  }

  ghost function Exec(es: seq<Event>, verifies: Verifies): Run {
    After(BOOT, es, verifies)
  }

  /** The clock never steps back and has not passed `now`. */
  ghost predicate ClockUpTo(es: seq<Event>, now: int) {
    es != [] ==>
      var e := es[|es| - 1];
      if e.Deliver? then e.ctx.now <= now && ClockUpTo(es[..|es| - 1], e.ctx.now) else ClockUpTo(es[..|es| - 1], now)
  }

  /** An admission is remembered, with its own horizon, until its window check must fail. */
  ghost predicate Remembered(a: Admission, s: Held, now: int) {
    var h := KeepUntil(a.command);
    h < now || (a.command.nonce in s.memory && s.memory[a.command.nonce] == h)
  }

  ghost predicate Inv(s: Run, now: int) {
    && Covered(s.nonces)
    && (forall i :: 0 <= i < |s.admitted| ==>
          && Remembered(s.admitted[i], s.nonces, now)
          && s.admitted[i].at <= KeepUntil(s.admitted[i].command))
    && NoReuse(s.admitted)
  }

  /** A nonce is only ever accepted again after the earlier envelope's window has closed. */
  ghost predicate NoReuse(admitted: seq<Admission>) {
    forall i, j :: 0 <= i < j < |admitted| && admitted[i].command.nonce == admitted[j].command.nonce ==>
      KeepUntil(admitted[i].command) < admitted[j].at
  }

  lemma InvLater(s: Run, now: int, later: int)
    requires Inv(s, now) && now <= later
    ensures Inv(s, later)
  {
  }

  lemma DeliverKeepsInv(s: Run, e: Event, verifies: Verifies)
    requires e.Deliver? && Inv(s, e.ctx.now)
    ensures Inv(Next(s, e, verifies), e.ctx.now)
  {
    hide Checks, FirstFailing, AfterMark, Live, Covered, Conforms;
    if e.e.parsed.Some? && FirstFailing(Checks(e.e.parsed.value, e.e.text, e.ctx, s.nonces.memory, verifies)).None? {
      var c, now := e.e.parsed.value, e.ctx.now;
      CoverBounds(s.nonces);
      MarkKeepsCover(s.nonces, c.nonce, KeepUntil(c), now, e.persists);
      MarkEvictsNothingLive(s.nonces, c.nonce, KeepUntil(c), now, e.persists);
      NoObjectionIff(c, e.e.text, e.ctx, s.nonces.memory, verifies);
      assert c.nonce !in s.nonces.memory;
      assert now <= KeepUntil(c);
    }
  }

  lemma CoverBounds(s: Held)
    requires Covered(s)
    ensures |s.memory| <= CAPACITY
  {
  }

  lemma {:induction false} RunsKeepInv(es: seq<Event>, now: int, verifies: Verifies)
    requires ClockUpTo(es, now)
    ensures Inv(Exec(es, verifies), now)
  {
    if es != [] {
      var e, before := es[|es| - 1], es[..|es| - 1];
      if e.Deliver? {
        RunsKeepInv(before, e.ctx.now, verifies);
        DeliverKeepsInv(Exec(before, verifies), e, verifies);
        InvLater(Exec(es, verifies), e.ctx.now, now);
      } else {
        RunsKeepInv(before, now, verifies);
      }
    }
  }

  /**
   * No envelope is accepted twice, whatever is delivered, whichever writes
   * fail and however often the controller restarts; a nonce is accepted again
   * only after the window of its earlier envelope has closed.
   */
  lemma NoEnvelopeAcceptedTwice(es: seq<Event>, now: int, verifies: Verifies, i: nat, j: nat)
    requires ClockUpTo(es, now)
    requires i < j < |Exec(es, verifies).admitted|
    ensures Exec(es, verifies).admitted[i].command != Exec(es, verifies).admitted[j].command
    ensures Exec(es, verifies).admitted[i].command.nonce == Exec(es, verifies).admitted[j].command.nonce ==>
              KeepUntil(Exec(es, verifies).admitted[i].command) < Exec(es, verifies).admitted[j].at
  {
    RunsKeepInv(es, now, verifies);
  }

  lemma NextKeepsCover(s: Run, e: Event, verifies: Verifies)
    requires Covered(s.nonces)
    ensures Covered(Next(s, e, verifies).nonces)
  {
    hide Checks, FirstFailing, AfterMark;
    if e.Deliver? && e.e.parsed.Some? {
      var c := e.e.parsed.value;
      MarkKeepsCover(s.nonces, c.nonce, KeepUntil(c), e.ctx.now, e.persists);
    }
  }

  /** Memory is always a part of the file, and both stay within capacity, whatever the clock does. */
  lemma {:induction false} FileCoversMemory(es: seq<Event>, verifies: Verifies)
    ensures Covered(Exec(es, verifies).nonces)
  {
    if es != [] {
      FileCoversMemory(es[..|es| - 1], verifies);
      NextKeepsCover(Exec(es[..|es| - 1], verifies), es[|es| - 1], verifies);
    }
  }

  // -- When the clock steps back -----------------------------------------------------------

  /** The delivery passes every check, so the store prunes at its clock, whether or not it can then record. */
  ghost predicate Reaches(s: Held, e: Event, verifies: Verifies) {
    && e.Deliver? && e.e.parsed.Some?
    && FirstFailing(Checks(e.e.parsed.value, e.e.text, e.ctx, s.memory, verifies)).None?
  }

  ghost predicate Records(s: Held, e: Event, verifies: Verifies) {
    && Reaches(s, e, verifies)
    && AfterMark(s, e.e.parsed.value.nonce, KeepUntil(e.e.parsed.value), e.ctx.now, e.persists).1 == Marked
  }

  /** Where a nonce is still remembered. */
  datatype Place = Place(memory: bool, file: bool)

  /**
   * What becomes of a nonce with horizon h: a delivery that reaches the store
   * beyond h drops it from memory, one that is recorded makes the file agree
   * with memory, and a restart makes memory agree with the file.
   */
  ghost function Kept(s: Run, es: seq<Event>, h: int, verifies: Verifies): Place {
    if es == [] then Place(true, true)
    else
      var prefix, e := es[..|es| - 1], es[|es| - 1];
      var p := Kept(s, prefix, h, verifies);
      var held := After(s, prefix, verifies).nonces;
      if e.Restart? then Place(p.file, p.file)
      else if !Reaches(held, e, verifies) then p
      else
        var memory := p.memory && e.ctx.now <= h;
        Place(memory, if Records(held, e, verifies) then memory else p.file)
  }

  /** No admission after the first n used this nonce. */
  ghost predicate NotReused(s: Run, n: nat, nonce: string) {
    forall i :: n <= i < |s.admitted| ==> s.admitted[i].command.nonce != nonce
  }

  ghost predicate InPlace(s: Held, nonce: string, h: int, p: Place) {
    && (nonce in s.memory <==> p.memory) && (nonce in s.memory ==> s.memory[nonce] == h)
    && (nonce in s.disk <==> p.file) && (nonce in s.disk ==> s.disk[nonce] == h)
  }

  lemma MarkMovesOthers(s: Held, own: string, keepUntil: int, now: int, persists: bool, nonce: string, h: int, p: Place)
    requires InPlace(s, nonce, h, p) && |s.memory| <= CAPACITY
    requires AfterMark(s, own, keepUntil, now, persists).1 == Marked ==> own != nonce
    requires own == nonce ==> nonce !in s.memory
    ensures var (s', r) := AfterMark(s, own, keepUntil, now, persists);
            var memory := p.memory && now <= h;
            InPlace(s', nonce, h, Place(memory, if r == Marked then memory else p.file))
  {
    hide Live;
    LiveIsPart(s.memory, now);
  }

  lemma NextMovesPlace(s: Run, es: seq<Event>, nonce: string, h: int, verifies: Verifies)
    requires es != []
    requires var t := After(s, es[..|es| - 1], verifies);
             Covered(t.nonces) && InPlace(t.nonces, nonce, h, Kept(s, es[..|es| - 1], h, verifies))
             && NotReused(Next(t, es[|es| - 1], verifies), |t.admitted|, nonce)
    ensures InPlace(After(s, es, verifies).nonces, nonce, h, Kept(s, es, h, verifies))
  {
    var prefix, e := es[..|es| - 1], es[|es| - 1];
    var t, p := After(s, prefix, verifies), Kept(s, prefix, h, verifies);
    if Reaches(t.nonces, e, verifies) {
      var c := e.e.parsed.value;
      NoObjectionIff(c, e.e.text, e.ctx, t.nonces.memory, verifies);
      hide Checks, FirstFailing, AfterMark, Covered, InPlace;
      CoverBounds(t.nonces);
      assert Records(t.nonces, e, verifies) ==> Next(t, e, verifies).admitted[|t.admitted|].command == c;
      MarkMovesOthers(t.nonces, c.nonce, KeepUntil(c), e.ctx.now, e.persists, nonce, h, p);
    }
  }

  lemma AdmittedGrows(s: Run, e: Event, verifies: Verifies)
    ensures |s.admitted| <= |Next(s, e, verifies).admitted|
    ensures Next(s, e, verifies).admitted[..|s.admitted|] == s.admitted
  {
  }

  /** As long as its nonce is not admitted again, an admission is remembered exactly where Kept says. */
  lemma {:induction false} KeptExactly(s: Run, es: seq<Event>, nonce: string, h: int, verifies: Verifies)
    requires Covered(s.nonces) && InPlace(s.nonces, nonce, h, Place(true, true))
    requires NotReused(After(s, es, verifies), |s.admitted|, nonce)
    ensures Covered(After(s, es, verifies).nonces)
    ensures InPlace(After(s, es, verifies).nonces, nonce, h, Kept(s, es, h, verifies))
    ensures |s.admitted| <= |After(s, es, verifies).admitted|
  {
    hide InPlace, Covered, Next, Kept;
    if es != [] {
      var prefix, e := es[..|es| - 1], es[|es| - 1];
      var t := After(s, prefix, verifies);
      AdmittedGrows(t, e, verifies);
      assert forall i :: 0 <= i < |t.admitted| ==>
          Next(t, e, verifies).admitted[i] == Next(t, e, verifies).admitted[..|t.admitted|][i];
      KeptExactly(s, prefix, nonce, h, verifies);
      NextMovesPlace(s, es, nonce, h, verifies);
      NextKeepsCover(t, e, verifies);
    } else {
      KeptAtFirst(s, h, verifies);
    }
  }

  lemma KeptAtFirst(s: Run, h: int, verifies: Verifies)
    ensures Kept(s, [], h, verifies) == Place(true, true)
  {
  }

  /** The envelope was admitted in this state by this event. */
  ghost predicate Admits(s: Run, e: Event, verifies: Verifies) {
    e.Deliver? && AfterVerify(e.e, e.ctx, s.nonces, e.persists, verifies).1.Accepted?
  }

  lemma AdmissionIsHeld(s: Run, first: Event, verifies: Verifies)
    requires Covered(s.nonces) && Admits(s, first, verifies)
    ensures var c, s' := first.e.parsed, Next(s, first, verifies);
            && c.Some? && Covered(s'.nonces)
            && InPlace(s'.nonces, c.value.nonce, KeepUntil(c.value), Place(true, true))
  {
    NextKeepsCover(s, first, verifies);
  }

  /** `first` is admitted after `before`; `late` delivers it again after `between`, where its nonce was not admitted. */
  ghost predicate Redelivers(before: seq<Event>, first: Event, between: seq<Event>, late: Event, verifies: Verifies) {
    && Admits(Exec(before, verifies), first, verifies) && first.e.parsed.Some?
    && late.Deliver? && late.e == first.e
    && var s := Next(Exec(before, verifies), first, verifies);
       NotReused(After(s, between, verifies), |s.admitted|, first.e.parsed.value.nonce)
  }

  /**
   * Over any deliveries and restarts, an envelope already admitted passes
   * again exactly when it conforms otherwise and the store has dropped its
   * nonce from memory in the meantime.
   */
  lemma ReplayedExactlyWhenDropped(before: seq<Event>, first: Event, between: seq<Event>, late: Event,
                                   verifies: Verifies)
    requires Redelivers(before, first, between, late, verifies)
    ensures var s, c := Next(Exec(before, verifies), first, verifies), first.e.parsed.value;
            var t := After(s, between, verifies);
            Admits(t, late, verifies) <==>
              && !Kept(s, between, KeepUntil(c), verifies).memory
              && Conforms(late.e, late.ctx, Held(t.nonces.memory - {c.nonce}, t.nonces.disk), late.persists, verifies)
  {
    var s := Next(Exec(before, verifies), first, verifies);
    var c := first.e.parsed.value;
    var t := After(s, between, verifies);
    FileCoversMemory(before, verifies);
    AdmissionIsHeld(Exec(before, verifies), first, verifies);
    KeptExactly(s, between, c.nonce, KeepUntil(c), verifies);
    hide Exec, After, Next, Kept, Covered, AfterVerify;
    AcceptsIffConforms(late.e, late.ctx, t.nonces, late.persists, verifies);
    if c.nonce !in t.nonces.memory {
      assert t.nonces.memory - {c.nonce} == t.nonces.memory;
    }
  }

  /** Some delivery reached the store at a clock beyond h. */
  ghost predicate WentBeyond(s: Run, es: seq<Event>, h: int, verifies: Verifies) {
    exists i :: 0 <= i < |es| && BeyondAt(s, es, i, h, verifies)
  }

  ghost predicate BeyondAt(s: Run, es: seq<Event>, i: nat, h: int, verifies: Verifies)
    requires i < |es|
  {
    Reaches(After(s, es[..i], verifies).nonces, es[i], verifies) && h < es[i].ctx.now
  }

  lemma WentBeyondSnoc(s: Run, es: seq<Event>, h: int, verifies: Verifies)
    requires es != []
    ensures WentBeyond(s, es, h, verifies)
            <==> WentBeyond(s, es[..|es| - 1], h, verifies) || BeyondAt(s, es, |es| - 1, h, verifies)
  {
    hide Reaches, After;
    var n := |es| - 1;
    var prefix := es[..n];
    assert forall i :: 0 <= i < n ==> prefix[..i] == es[..i] && prefix[i] == es[i];
    assert forall i :: 0 <= i < n ==> (BeyondAt(s, prefix, i, h, verifies) <==> BeyondAt(s, es, i, h, verifies));
  }

  /** Only a delivery beyond the horizon makes the store drop a nonce; without restarts every one does. */
  lemma {:induction false} DroppedOnlyBeyond(s: Run, es: seq<Event>, h: int, verifies: Verifies)
    ensures !Kept(s, es, h, verifies).memory || !Kept(s, es, h, verifies).file ==> WentBeyond(s, es, h, verifies)
    ensures Restart !in es ==> (!Kept(s, es, h, verifies).memory <==> WentBeyond(s, es, h, verifies))
  {
    if es != [] {
      var n := |es| - 1;
      DroppedOnlyBeyond(s, es[..n], h, verifies);
      WentBeyondSnoc(s, es, h, verifies);
      hide Reaches, After, Records, WentBeyond;
      assert Restart !in es ==> Restart !in es[..n] && es[n] != Restart;
    }
  }

  lemma ConformingIsInTime(e: Envelope, ctx: Context, s: Held, persists: bool, verifies: Verifies)
    requires Conforms(e, ctx, s, persists, verifies)
    ensures ctx.now <= KeepUntil(e.parsed.value)
  {
  }

  /** So a replay takes a clock that steps back: past the envelope's horizon and then inside it again. */
  lemma ReplayNeedsAClockStepBack(before: seq<Event>, first: Event, between: seq<Event>, late: Event,
                                  verifies: Verifies)
    requires Redelivers(before, first, between, late, verifies)
    requires Admits(After(Next(Exec(before, verifies), first, verifies), between, verifies), late, verifies)
    ensures late.ctx.now <= KeepUntil(first.e.parsed.value)
    ensures var s := Next(Exec(before, verifies), first, verifies);
            WentBeyond(s, between, KeepUntil(first.e.parsed.value), verifies)
  {
    var s, c := Next(Exec(before, verifies), first, verifies), first.e.parsed.value;
    var t := After(s, between, verifies);
    ReplayedExactlyWhenDropped(before, first, between, late, verifies);
    hide *;
    var held := Held(t.nonces.memory - {c.nonce}, t.nonces.disk);
    ConformingIsInTime(late.e, late.ctx, held, late.persists, verifies);
    DroppedOnlyBeyond(s, between, KeepUntil(c), verifies);
  }

  // A run that shows it: admitted at 0, another envelope refused at 100 by a failed write, the clock back at 0.

  const EARLY := Envelope("early", Some(Command("ping", "d", "", "n1", 0, 0, map[])))
  const LATER := Envelope("later", Some(Command("ping", "d", "", "n2", 100, 100, map[])))

  function At(now: int64): Context {
    Context(now, "d", [], false, "k")
  }

  const STEPPED_BACK :=
    [Deliver(EARLY, At(0), true), Deliver(LATER, At(100), false), Deliver(EARLY, At(0), true)]

  lemma SteppedBackClockReplays(verifies: Verifies)
    requires verifies("k", "early") && verifies("k", "later")
    ensures Exec(STEPPED_BACK, verifies).admitted
            == [Admission(EARLY.parsed.value, 0), Admission(EARLY.parsed.value, 0)]
  {
    hide Next;
    var none, a, b := STEPPED_BACK[..0], STEPPED_BACK[..1], STEPPED_BACK[..2];
    assert a[..|a| - 1] == none && b[..|b| - 1] == a && STEPPED_BACK[..|STEPPED_BACK| - 1] == b;
    assert After(BOOT, none, verifies) == BOOT;
    FirstAdmission(verifies);
    RefusedButPruned(verifies);
    var s1 := Next(BOOT, STEPPED_BACK[0], verifies);
    var s2 := Next(s1, STEPPED_BACK[1], verifies);
    assert After(BOOT, a, verifies) == s1;
    assert After(BOOT, b, verifies) == s2;
    SecondAdmission(s2, verifies);
  }

  const HELD := Held(map["n1" := 90], map["n1" := 90])

  lemma FirstAdmission(verifies: Verifies)
    requires verifies("k", "early")
    ensures Next(BOOT, STEPPED_BACK[0], verifies) == Run(HELD, [Admission(EARLY.parsed.value, 0)])
  {
    hide Checks, FirstFailing;
    AdmitsEarly(BOOT.nonces, verifies);
    assert Live(map[], 0) == map[];
  }

  lemma RefusedButPruned(verifies: Verifies)
    requires verifies("k", "later")
    ensures var s := Run(HELD, [Admission(EARLY.parsed.value, 0)]);
            Next(s, STEPPED_BACK[1], verifies) == Run(Held(map[], HELD.disk), s.admitted)
  {
    WrapIsExact(190);
    WrapIsExact(10);
    NoObjectionIff(LATER.parsed.value, "later", At(100), HELD.memory, verifies);
    hide Checks, FirstFailing;
    assert Live(HELD.memory, 100) == map[];
  }

  lemma SecondAdmission(s: Run, verifies: Verifies)
    requires verifies("k", "early") && s.nonces.memory == map[]
    ensures Next(s, STEPPED_BACK[2], verifies).admitted == s.admitted + [Admission(EARLY.parsed.value, 0)]
  {
    hide Checks, FirstFailing;
    AdmitsEarly(s.nonces, verifies);
  }

  lemma AdmitsEarly(s: Held, verifies: Verifies)
    requires verifies("k", "early") && s.memory == map[]
    ensures AfterVerify(EARLY, At(0), s, true, verifies)
            == (AfterMark(s, "n1", 90, 0, true).0, Accepted(EARLY.parsed.value))
  {
    NoObjectionIff(EARLY.parsed.value, "early", At(0), s.memory, verifies);
    WrapIsExact(90);
    WrapIsExact(-90);
    assert Live(s.memory, 0) == map[];
  }
}
