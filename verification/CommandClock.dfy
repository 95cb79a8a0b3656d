/**
 * Commands under the clock the controller really has: an accepted ping and
 * each connection set it to the time the gateway states, a restart goes back
 * to the wall clock, and otherwise it only advances.
 */
module CommandClock {
  import opened Common
  import opened Checklist
  import opened NonceStore
  import opened Commands

  datatype Happening =
    | Receive(e: Envelope, ctx: Context, persists: bool) // the clock in ctx is replaced by the controller's
    | Until(now: int64)
    | Set(now: int64) // by a connection, or before the first one by whatever sets the wall clock
    | Reboot(wall: int64)

  datatype Clocked = Clocked(run: Run, now: int64)

  function CtxAt(h: Happening, now: int64): Context
    requires h.Receive?
  {
    h.ctx.(now := now)
  }

  ghost predicate Syncs(s: Clocked, h: Happening, verifies: Verifies) {
    && h.Receive? && h.e.parsed.Some? && h.e.parsed.value.cmd == "ping"
    && Admits(s.run, Deliver(h.e, CtxAt(h, s.now), h.persists), verifies)
  }

  ghost function Next(s: Clocked, h: Happening, verifies: Verifies): Clocked {
    match h
    case Receive(e, _, persists) =>
      Clocked(Commands.Next(s.run, Deliver(e, CtxAt(h, s.now), persists), verifies),
              if Syncs(s, h, verifies) then e.parsed.value.iat else s.now)
    case Until(now) => if s.now <= now then s.(now := now) else s
    case Set(now) => s.(now := now)
    case Reboot(wall) => Clocked(Commands.Next(s.run, Restart, verifies), wall)
  }

  ghost function After(s: Clocked, hs: seq<Happening>, verifies: Verifies): Clocked {
    if hs == [] then s else Next(After(s, hs[..|hs| - 1], verifies), hs[|hs| - 1], verifies)
  }

  ghost function Exec(wall: int64, hs: seq<Happening>, verifies: Verifies): Clocked {
    After(Clocked(BOOT, wall), hs, verifies)
  }

  // -- The deliveries of a run, with the clock each one met ---------------------------------

  ghost function Delivered(s: Clocked, h: Happening): seq<Commands.Event> {
    match h
    case Receive(e, _, persists) => [Deliver(e, CtxAt(h, s.now), persists)]
    case Reboot(_) => [Restart]
    case _ => []
  }

  ghost function Met(wall: int64, hs: seq<Happening>, verifies: Verifies): seq<Commands.Event> {
    if hs == [] then []
    else
      var prefix := hs[..|hs| - 1];
      Met(wall, prefix, verifies) + Delivered(Exec(wall, prefix, verifies), hs[|hs| - 1])
  }

  lemma {:induction false} RunIsOfMet(wall: int64, hs: seq<Happening>, verifies: Verifies)
    ensures Exec(wall, hs, verifies).run == Commands.Exec(Met(wall, hs, verifies), verifies)
  {
    if hs != [] {
      var prefix, h := hs[..|hs| - 1], hs[|hs| - 1];
      RunIsOfMet(wall, prefix, verifies);
      var met := Met(wall, prefix, verifies);
      var more := Delivered(Exec(wall, prefix, verifies), h);
      hide Commands.Next, Syncs;
      if more == [] {
        assert met + more == met;
      } else {
        assert (met + more)[..|met + more| - 1] == met;
      }
    }
  }

  // -- How far the clock moves ---------------------------------------------------------------

  /**
   * An accepted ping moves the clock back by at most 150 s, the skew and the
   * longest window, and ahead by at most the skew.
   */
  lemma PingStepIsBounded(s: Clocked, h: Happening, verifies: Verifies)
    requires Syncs(s, h, verifies) && h.e.parsed.value.exp - h.e.parsed.value.iat < TWO63
    ensures s.now - CLOCK_SKEW - MAX_WINDOW <= Next(s, h, verifies).now <= s.now + CLOCK_SKEW
  {
    var c := h.e.parsed.value;
    AcceptsIffConforms(h.e, CtxAt(h, s.now), s.run.nonces, h.persists, verifies);
    hide AfterVerify, Timely;
    ConformingIsTimely(h.e, CtxAt(h, s.now), s.run.nonces, h.persists, verifies);
    WindowCheckIsExact(c.iat, c.exp, s.now);
  }

  lemma ConformingIsTimely(e: Envelope, ctx: Context, s: Held, persists: bool, verifies: Verifies)
    requires Conforms(e, ctx, s, persists, verifies)
    ensures Timely(e.parsed.value.iat, e.parsed.value.exp, ctx.now)
  {
  }

  /** No happening of the run sets the clock back. */
  ghost predicate Steady(wall: int64, hs: seq<Happening>, verifies: Verifies) {
    hs != [] ==>
      var prefix := hs[..|hs| - 1];
      && Steady(wall, prefix, verifies)
      && Exec(wall, prefix, verifies).now <= Exec(wall, hs, verifies).now
  }

  lemma LaterClock(es: seq<Commands.Event>, now: int, later: int)
    requires ClockUpTo(es, now) && now <= later
    ensures ClockUpTo(es, later)
  {
  }

  lemma {:induction false} SteadyIsClockUpTo(wall: int64, hs: seq<Happening>, verifies: Verifies)
    requires Steady(wall, hs, verifies)
    ensures ClockUpTo(Met(wall, hs, verifies), Exec(wall, hs, verifies).now)
  {
    if hs != [] {
      var prefix, h := hs[..|hs| - 1], hs[|hs| - 1];
      SteadyIsClockUpTo(wall, prefix, verifies);
      hide Next;
      var met, s := Met(wall, prefix, verifies), Exec(wall, prefix, verifies);
      var more := Delivered(s, h);
      LaterClock(met, s.now, Exec(wall, hs, verifies).now);
      if more == [] {
        assert met + more == met;
      } else {
        assert (met + more)[..|met + more| - 1] == met;
      }
    }
  }

  /** While no ping, connection or restart sets the clock back, no envelope is accepted twice. */
  lemma SteadyClockNeverReplays(wall: int64, hs: seq<Happening>, verifies: Verifies, i: nat, j: nat)
    requires Steady(wall, hs, verifies) && i < j < |Exec(wall, hs, verifies).run.admitted|
    ensures Exec(wall, hs, verifies).run.admitted[i].command != Exec(wall, hs, verifies).run.admitted[j].command
  {
    SteadyIsClockUpTo(wall, hs, verifies);
    RunIsOfMet(wall, hs, verifies);
    NoEnvelopeAcceptedTwice(Met(wall, hs, verifies), Exec(wall, hs, verifies).now, verifies, i, j);
  }

  // -- One delayed ping is enough ------------------------------------------------------------

  /** The clock the ping meets: one second past the command's horizon. */
  function Past(c: Command): int {
    c.exp + CLOCK_SKEW + 1
  }

  /** A ping that took as long as it may: it sets the clock back by all of 150 s. */
  predicate Delayed(ping: Command, c: Command) {
    && ping.cmd == "ping" && ping.deviceId == c.deviceId && ping.nonce != "" && ping.nonce != c.nonce
    && ping.exp == c.exp + 1 && ping.iat == ping.exp - MAX_WINDOW
  }

  /** The command conforms at this clock, whatever the store holds. */
  predicate Acceptable(e: Envelope, ctx: Context, verifies: Verifies) {
    && e.parsed.Some? && verifies(ctx.key, e.text)
    && var c := e.parsed.value;
       && c.deviceId == ctx.deviceId && c.nonce != ""
       && (NeedsAccessPoint(c.cmd) ==> c.accessPoint != "" && c.accessPoint in ctx.accessPoints)
       && (ctx.lockdown ==> LockdownAllows(c.cmd))
       && -TWO63 <= c.iat - CLOCK_SKEW && c.exp + CLOCK_SKEW < TWO63
       && InWindow(c.iat, c.exp, ctx.now)
  }

  lemma AcceptedNow(e: Envelope, ctx: Context, s: Held, verifies: Verifies)
    requires Acceptable(e, ctx, verifies) && e.parsed.value.nonce !in s.memory && |Live(s.memory, ctx.now)| < CAPACITY
    ensures AfterVerify(e, ctx, s, true, verifies)
            == (AfterMark(s, e.parsed.value.nonce, e.parsed.value.exp + CLOCK_SKEW, ctx.now, true).0,
                Accepted(e.parsed.value))
  {
    var c := e.parsed.value;
    AcceptsIffConforms(e, ctx, s, true, verifies);
    WindowCheckIsExact(c.iat, c.exp, ctx.now);
    WrapIsExact(c.exp + CLOCK_SKEW);
    hide Checks, FirstFailing, Live, Timely;
  }

  /** The command can be admitted, and the ping be delayed, with no time out of the 64-bit range. */
  predicate Replayable(e: Envelope, ctx: Context, ping: Envelope, verifies: Verifies) {
    && Acceptable(e, ctx, verifies) && ping.parsed.Some? && verifies(ctx.key, ping.text)
    && Delayed(ping.parsed.value, e.parsed.value)
    && -TWO63 <= e.parsed.value.iat - CLOCK_SKEW - MAX_WINDOW && Past(e.parsed.value) < TWO63
  }

  /** An acceptable command whose nonce is not held is admitted, and held alone if nothing else is alive. */
  lemma AdmitStep(s: Clocked, e: Envelope, ctx: Context, verifies: Verifies)
    requires Acceptable(e, ctx.(now := s.now), verifies) && e.parsed.value.nonce !in s.run.nonces.memory
    requires |Live(s.run.nonces.memory, s.now)| < CAPACITY
    ensures var c := e.parsed.value;
            var kept := Live(s.run.nonces.memory, s.now)[c.nonce := c.exp + CLOCK_SKEW];
            Next(s, Receive(e, ctx, true), verifies)
            == Clocked(Run(Held(kept, kept), s.run.admitted + [Admission(c, s.now)]),
                       if c.cmd == "ping" then c.iat else s.now)
  {
    AcceptedNow(e, ctx.(now := s.now), s.run.nonces, verifies);
    hide AfterVerify, Acceptable, Live;
  }

  lemma FourSteps(s: Clocked, hs: seq<Happening>, verifies: Verifies)
    requires |hs| == 4
    ensures After(s, hs, verifies)
            == Next(Next(Next(Next(s, hs[0], verifies), hs[1], verifies), hs[2], verifies), hs[3], verifies)
  {
    hide Next;
    var a, b, c := hs[..1], hs[..2], hs[..3];
    assert a[..|a| - 1] == [] && b[..|b| - 1] == a && c[..|c| - 1] == b && hs[..|hs| - 1] == c;
    assert After(s, a, verifies) == Next(s, hs[0], verifies);
    assert After(s, b, verifies) == Next(After(s, a, verifies), hs[1], verifies);
    assert After(s, c, verifies) == Next(After(s, b, verifies), hs[2], verifies);
  }

  /**
   * Any command that is admitted can be admitted once more with every write
   * succeeding and no clock but the pings': a ping delayed past the command's
   * horizon drops its nonce and sets the clock back into its window, by as
   * much as a ping can.
   */
  lemma DelayedPingReplays(e: Envelope, ctx: Context, ping: Envelope, verifies: Verifies)
    requires Replayable(e, ctx, ping, verifies)
    ensures var c, sync := e.parsed.value, ping.parsed.value;
            var hs := [Receive(e, ctx, true), Until(Past(c)), Receive(ping, ctx, true), Receive(e, ctx, true)];
            && Exec(ctx.now, hs, verifies).run.admitted
               == [Admission(c, ctx.now), Admission(sync, Past(c)), Admission(c, sync.iat)]
            && Past(c) - sync.iat == CLOCK_SKEW + MAX_WINDOW
  {
    var c, sync := e.parsed.value, ping.parsed.value;
    assert Past(c) - sync.iat == CLOCK_SKEW + MAX_WINDOW;
    hide Next, Acceptable, Live, Delayed, After;
    var hs := [Receive(e, ctx, true), Until(Past(c)), Receive(ping, ctx, true), Receive(e, ctx, true)];
    FourSteps(Clocked(BOOT, ctx.now), hs, verifies);
    var start := Clocked(BOOT, ctx.now);
    var waited := OpenThenWait(e, ctx, ping, verifies);
    assert Next(Next(start, hs[0], verifies), hs[1], verifies) == waited;
    var synced := PingThenOpen(e, ctx, ping, waited, verifies);
    assert Next(waited, hs[2], verifies) == synced;
  }

  function HeldOnly(c: Command): Held {
    Held(map[c.nonce := c.exp + CLOCK_SKEW], map[c.nonce := c.exp + CLOCK_SKEW])
  }

  lemma OpenThenWait(e: Envelope, ctx: Context, ping: Envelope, verifies: Verifies) returns (waited: Clocked)
    requires Replayable(e, ctx, ping, verifies)
    ensures var c := e.parsed.value;
            && waited == Clocked(Run(HeldOnly(c), [Admission(c, ctx.now)]), Past(c))
            && Next(Next(Clocked(BOOT, ctx.now), Receive(e, ctx, true), verifies), Until(Past(c)), verifies) == waited
  {
    var c := e.parsed.value;
    StillAcceptable(e, ctx, ping, verifies);
    LiveAtTheTurns(c, ping.parsed.value, ctx.now);
    hide Next, Acceptable, Live, Delayed, Replayable;
    AdmitStep(Clocked(BOOT, ctx.now), e, ctx, verifies);
    var first := Run(HeldOnly(c), [Admission(c, ctx.now)]);
    assert BOOT.admitted + [Admission(c, ctx.now)] == first.admitted;
    waited := Clocked(first, Past(c));
    Waiting(Clocked(first, if c.cmd == "ping" then c.iat else ctx.now), Past(c), verifies);
  }

  lemma PingThenOpen(e: Envelope, ctx: Context, ping: Envelope, waited: Clocked, verifies: Verifies)
    returns (synced: Clocked)
    requires Replayable(e, ctx, ping, verifies) && waited.run.nonces == HeldOnly(e.parsed.value)
    requires waited.now == Past(e.parsed.value)
    ensures var c, sync := e.parsed.value, ping.parsed.value;
            && synced == Next(waited, Receive(ping, ctx, true), verifies)
            && Next(synced, Receive(e, ctx, true), verifies).run.admitted
               == waited.run.admitted + [Admission(sync, Past(c)), Admission(c, sync.iat)]
  {
    var c, sync := e.parsed.value, ping.parsed.value;
    assert sync.cmd == "ping" && sync.nonce != c.nonce;
    StillAcceptable(e, ctx, ping, verifies);
    LiveAtTheTurns(c, sync, ctx.now);
    hide Next, Acceptable, Live, Delayed, Replayable;
    AdmitStep(waited, ping, ctx, verifies);
    synced := Clocked(Run(HeldOnly(sync), waited.run.admitted + [Admission(sync, Past(c))]), sync.iat);
    AdmitStep(synced, e, ctx, verifies);
  }

  lemma Waiting(s: Clocked, now: int64, verifies: Verifies)
    requires s.now <= now
    ensures Next(s, Until(now), verifies) == s.(now := now)
  {
  }

  lemma StillAcceptable(e: Envelope, ctx: Context, ping: Envelope, verifies: Verifies)
    requires Replayable(e, ctx, ping, verifies)
    ensures var c := e.parsed.value;
            && c.iat <= c.exp && ctx.now < Past(c)
            && Acceptable(ping, ctx.(now := Past(c)), verifies)
            && Acceptable(e, ctx.(now := ping.parsed.value.iat), verifies)
  {
  }

  /** Nothing is alive when the command first comes and when the ping comes, and only the ping's nonce after it. */
  lemma LiveAtTheTurns(c: Command, sync: Command, now: int)
    requires Delayed(sync, c)
    ensures Live(map[], now) == map[]
    ensures Live(map[c.nonce := c.exp + CLOCK_SKEW], Past(c)) == map[]
    ensures var held := map[sync.nonce := sync.exp + CLOCK_SKEW]; Live(held, sync.iat) == held
  {
  }
}
