/**
 * A held gate and its release timer, over whole runs. The relay latches open
 * on a hold until a release; the timer is armed by a hold that worked and
 * disarmed before any release is tried. Durations are 64-bit nanoseconds.
 */
module HoldTimer {
  import opened Common
  import Commands

  const SECOND := 1_000_000_000

  datatype Actuation = Pulse(ms: int) | Hold(seconds: int) | Release

  /** What happens to the relay, in order; a driver lets go of the gate when its process ends. */
  datatype Move = Tried(actuation: Actuation, works: bool) | Passed(time: nat) | Exited

  /** The relay, the time left on the armed timer, and the account of how it came about. */
  datatype Gate = Gate(held: bool, timer: Option<int>, moves: seq<Move>)

  const AT_REST := Gate(false, None, [])

  /** How long the timer of a hold really runs: the conversion to nanoseconds wraps. */
  function Duration(seconds: int): int {
    Commands.Wrap(seconds * SECOND)
  }

  /** A hold is timed as asked exactly up to some 292 years; the first longer one gets a negative time. */
  lemma DurationIsExactIff(seconds: nat)
    ensures Duration(seconds) == seconds * SECOND <==> seconds <= 9_223_372_036
    ensures Duration(9_223_372_037) < 0
  {
    Commands.WrapIsExact(seconds * SECOND);
  }

  /** One attempt to move the relay, and what the timer is left at. */
  function AfterTry(g: Gate, a: Actuation, works: bool): Gate {
    var moves := g.moves + [Tried(a, works)];
    match a
    case Pulse(_) => g.(moves := moves)
    case Hold(seconds) => if works then Gate(true, Some(Duration(seconds)), moves) else g.(moves := moves)
    case Release => Gate(g.held && !works, None, moves)
  }

  datatype Event =
    | Try(actuation: Actuation, works: bool) // on a command or a redemption
    | Elapse(time: nat)
    | Fire(works: bool)                      // the timer's own release
    | Exit

  /** A timer fires once its time is over and no time passes before it has. */
  predicate Enabled(g: Gate, e: Event) {
    match e
    case Elapse(time) => g.timer.Some? ==> time <= g.timer.value
    case Fire(_) => g.timer.Some? && g.timer.value <= 0
    case _ => true
  }

  function Next(g: Gate, e: Event): Gate {
    if !Enabled(g, e) then g else
    match e
    case Try(a, works) => AfterTry(g, a, works)
    case Elapse(time) =>
      g.(timer := if g.timer.Some? then Some(g.timer.value - time) else None, moves := g.moves + [Passed(time)])
    case Fire(works) => AfterTry(g, Release, works)
    case Exit => Gate(false, None, g.moves + [Exited])
  }

  function After(g: Gate, es: seq<Event>): Gate {
    if es == [] then g else Next(After(g, es[..|es| - 1]), es[|es| - 1])
  }

  function Exec(es: seq<Event>): Gate {
    After(AT_REST, es)
  }

  // -- Reading the account -----------------------------------------------------------------

  predicate HoldWorked(m: Move) {
    m.Tried? && m.actuation.Hold? && m.works
  }

  /** After this the gate is held or let go, whatever it was before. */
  predicate Settles(m: Move) {
    m.Exited? || (m.Tried? && !m.actuation.Pulse? && m.works)
  }

  /** Move i is a hold that worked, and nothing has ended or renewed it. */
  predicate LastHold(moves: seq<Move>, i: nat) {
    i < |moves| && HoldWorked(moves[i]) && forall k :: i < k < |moves| ==> !Settles(moves[k])
  }

  predicate ReleaseFailed(m: Move) {
    m == Tried(Release, false)
  }

  predicate FailedSince(moves: seq<Move>, i: nat) {
    exists k :: i < k < |moves| && ReleaseFailed(moves[k])
  }

  /** The time that has passed in these moves. */
  function TimeIn(moves: seq<Move>): nat {
    if moves == [] then 0
    else
      var last := moves[|moves| - 1];
      TimeIn(moves[..|moves| - 1]) + if last.Passed? then last.time else 0
  }

  function TimeSince(moves: seq<Move>, i: nat): nat
    requires i < |moves|
  {
    TimeIn(moves[i + 1..])
  }

  lemma Snoc(moves: seq<Move>, m: Move, i: nat)
    ensures LastHold(moves + [m], i) <==> if i == |moves| then HoldWorked(m) else LastHold(moves, i) && !Settles(m)
    ensures i < |moves| ==> (FailedSince(moves + [m], i) <==> FailedSince(moves, i) || ReleaseFailed(m))
    ensures i < |moves| ==>
              TimeSince(moves + [m], i) == TimeSince(moves, i) + if m.Passed? then m.time else 0
  {
    var more := moves + [m];
    assert more[|moves|] == m && forall k :: 0 <= k < |moves| ==> more[k] == moves[k];
    if i < |moves| {
      assert more[i + 1..] == moves[i + 1..] + [m];
      assert more[i + 1..][..|more[i + 1..]| - 1] == moves[i + 1..];
    }
  }

  // -- What every run keeps ----------------------------------------------------------------

  /** What a hold has left of the time it asked for, unless a release has failed since. */
  function TimeLeft(moves: seq<Move>, i: nat): Option<int>
    requires LastHold(moves, i)
  {
    if FailedSince(moves, i) then None else Some(Duration(moves[i].actuation.seconds) - TimeSince(moves, i))
  }

  /** Gate and timer are what the account says, where `last` is its last hold. */
  ghost predicate Tells(g: Gate, last: Option<nat>) {
    match last
    case None => !g.held && g.timer == None && forall k :: !LastHold(g.moves, k)
    case Some(i) =>
      && g.held && LastHold(g.moves, i)
      && g.timer == TimeLeft(g.moves, i)
      && (g.timer.Some? && TimeSince(g.moves, i) > 0 ==> g.timer.value >= 0)
  }

  function LastAfter(last: Option<nat>, moves: seq<Move>, m: Move): Option<nat> {
    if HoldWorked(m) then Some(|moves|) else if Settles(m) then None else last
  }

  /** One more move, as every step that is one makes it. */
  ghost predicate Extends(g: Gate, m: Move, g': Gate) {
    && g'.moves == g.moves + [m]
    && g'.held == (HoldWorked(m) || (g.held && !Settles(m)))
    && (m.Passed? && g.timer.Some? ==> m.time <= g.timer.value)
    && g'.timer == if HoldWorked(m) then Some(Duration(m.actuation.seconds))
                   else if Settles(m) || ReleaseFailed(m) || g.timer.None? then None
                   else Some(g.timer.value - if m.Passed? then m.time else 0)
  }

  lemma ExtendsTells(g: Gate, m: Move, g': Gate, last: Option<nat>)
    requires Tells(g, last) && Extends(g, m, g')
    ensures Tells(g', LastAfter(last, g.moves, m))
  {
    hide LastHold, FailedSince, TimeSince, Duration;
    forall k: nat ensures LastHold(g'.moves, k) <==>
                          if k == |g.moves| then HoldWorked(m) else LastHold(g.moves, k) && !Settles(m)
    {
      Snoc(g.moves, m, k);
    }
    var last' := LastAfter(last, g.moves, m);
    if last'.Some? && !HoldWorked(m) {
      HoldIsInside(g.moves, last.value);
      Snoc(g.moves, m, last.value);
    } else if last'.Some? {
      NothingSinceItself(g.moves, m);
    }
  }

  lemma HoldIsInside(moves: seq<Move>, i: nat)
    requires LastHold(moves, i)
    ensures i < |moves| && HoldWorked(moves[i])
  {
  }

  lemma NothingSinceItself(moves: seq<Move>, m: Move)
    ensures !FailedSince(moves + [m], |moves|) && TimeSince(moves + [m], |moves|) == 0
  {
    assert (moves + [m])[|moves| + 1..] == [];
  }

  lemma NextTells(g: Gate, e: Event, last: Option<nat>) returns (last': Option<nat>)
    requires Tells(g, last)
    ensures Tells(Next(g, e), last')
  {
    hide LastHold, FailedSince, TimeSince, Duration;
    last' := last;
    if Enabled(g, e) {
      var m := match e
               case Try(a, works) => Tried(a, works)
               case Elapse(time) => Passed(time)
               case Fire(works) => Tried(Release, works)
               case Exit => Exited;
      hide Tells;
      ExtendsTells(g, m, Next(g, e), last);
      last' := LastAfter(last, g.moves, m);
    }
  }

  lemma {:induction false} RunTells(es: seq<Event>) returns (last: Option<nat>)
    ensures Tells(Exec(es), last)
  {
    if es == [] {
      last := None;
    } else {
      last := RunTells(es[..|es| - 1]);
      last := NextTells(Exec(es[..|es| - 1]), es[|es| - 1], last);
    }
  }

  lemma LastHoldIsOne(moves: seq<Move>, i: nat, j: nat)
    requires LastHold(moves, i) && LastHold(moves, j)
    ensures i == j
  {
  }

  /** In every run the gate is held exactly when its last hold has not been ended. */
  lemma HeldIffHoldStands(es: seq<Event>)
    ensures Exec(es).held <==> exists i :: LastHold(Exec(es).moves, i)
  {
    var last := RunTells(es);
  }

  /**
   * In every run a held gate has no timer to release it exactly when a
   * release has failed since its last hold; no timer runs on a gate that is
   * not held.
   */
  lemma UntimedIffReleaseFailed(es: seq<Event>)
    ensures var g := Exec(es);
            && (g.held && g.timer.None? <==> exists i :: LastHold(g.moves, i) && FailedSince(g.moves, i))
            && (g.timer.Some? ==> g.held)
  {
    var g := Exec(es);
    var last := RunTells(es);
    hide LastHold, FailedSince, TimeSince, Duration, Exec;
    forall i: nat | LastHold(g.moves, i) ensures last == Some(i) {
      LastHoldIsOne(g.moves, last.value, i);
    }
  }

  /** Until a release fails, the gate is held no longer than its last hold asked for. */
  lemma HeldNoLongerThanAsked(es: seq<Event>, i: nat)
    requires LastHold(Exec(es).moves, i) && !FailedSince(Exec(es).moves, i)
    ensures var moves := Exec(es).moves;
            TimeSince(moves, i) > 0 ==> TimeSince(moves, i) <= Duration(moves[i].actuation.seconds)
  {
    var last := RunTells(es);
    LastHoldIsOne(Exec(es).moves, last.value, i);
  }

  /** Nothing in these events can end or time a hold: no hold and no release that works, and no exit. */
  predicate NothingSettles(es: seq<Event>) {
    forall e :: e in es ==> e.Elapse? || e.Fire? || (e.Try? && (e.actuation.Pulse? || !e.works))
  }

  /** Once a held gate has no timer, no time that passes releases it; only another command that works can. */
  lemma {:induction false} UntimedStaysHeld(g: Gate, es: seq<Event>)
    requires g.held && g.timer.None? && NothingSettles(es)
    ensures After(g, es).held && After(g, es).timer.None?
  {
    if es != [] {
      assert es[|es| - 1] in es && forall e :: e in es[..|es| - 1] ==> e in es;
      UntimedStaysHeld(g, es[..|es| - 1]);
    }
  }

  /**
   * Two ways to get there, whatever the hold asked for: a close whose
   * release fails, and a timer whose own release fails.
   */
  lemma FailedReleaseHoldsForever(seconds: int, es: seq<Event>)
    requires NothingSettles(es) && Duration(seconds) >= 0
    ensures var held := AfterTry(AT_REST, Hold(seconds), true);
            && After(AfterTry(held, Release, false), es).held
            && After(Next(Next(held, Elapse(Duration(seconds))), Fire(false)), es).held
  {
    hide Duration;
    var held := AfterTry(AT_REST, Hold(seconds), true);
    UntimedStaysHeld(AfterTry(held, Release, false), es);
    UntimedStaysHeld(Next(Next(held, Elapse(Duration(seconds))), Fire(false)), es);
  }
}
