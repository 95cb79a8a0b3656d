/**
 * Fixed-window arithmetic of the open limiter. Instants are integer
 * milliseconds since the epoch, durations whole seconds.
 */
module WindowMath {

  const HOUR_S := 3600
  const DAY_S := 86400

  function CeilDiv(a: int, b: int): (q: int)
    requires b > 0
    ensures b * (q - 1) < a <= b * q
  {
    (a + b - 1) / b
  }

  function Max(a: int, b: int): int {
    if a < b then b else a
  }

  /** UTC epoch-aligned start of the window that contains `now`. */
  function FixedWindowStart(now: int, windowS: int): (start: int)
    requires windowS > 0
    ensures start <= now < start + windowS * 1000
  {
    WindowFloor(now, windowS);
    now / 1000 / windowS * windowS * 1000
  }

  lemma WindowFloor(now: int, windowS: int)
    requires windowS > 0
    ensures now / 1000 / windowS * windowS * 1000 <= now
    ensures now < now / 1000 / windowS * windowS * 1000 + windowS * 1000
  {
    var e := now / 1000;
    var q := e / windowS;
    assert e == q * windowS + e % windowS;
    assert q * windowS <= e <= q * windowS + windowS - 1;
  }

  /** The window hint: at least one second, rounded up to the end of the window. */
  function SecondsUntilWindowEnd(now: int, windowS: int): int
    requires windowS > 0
  {
    var end := FixedWindowStart(now, windowS) + windowS * 1000;
    Max(1, CeilDiv(end - now, 1000))
  }

  /** Remaining cooldown in whole seconds; 0 once it has fully elapsed. */
  function CooldownRemainingS(lastOpenAt: int, now: int, cooldownS: int): int {
    var elapsed := now - lastOpenAt;
    if elapsed >= cooldownS * 1000 then 0
    else Max(1, CeilDiv(cooldownS * 1000 - elapsed, 1000))
  }

  /** Windows tile the time line: an instant lies in exactly one of them. */
  lemma WindowStartUnique(now: int, windowS: int, k: int)
    requires windowS > 0
    requires k * windowS * 1000 <= now < (k + 1) * windowS * 1000
    ensures FixedWindowStart(now, windowS) == k * windowS * 1000
  {
    var e := now / 1000;
    assert k * windowS <= e < (k + 1) * windowS;
    assert e / windowS == k by {
      var q := e / windowS;
      assert e == q * windowS + e % windowS;
      if q < k { MulMono(q + 1, k, windowS); assert false; }
      if q > k { MulMono(k + 1, q, windowS); assert false; }
    }
  }

  lemma MulMono(a: int, b: int, c: int)
    requires a <= b && 0 <= c
    ensures a * c <= b * c
  {
  }

  /**
   * The window hint is exactly the least number of whole seconds after which
   * the counter's window has rolled over, and never exceeds the window.
   */
  lemma WindowHintIsLeast(now: int, windowS: int, n: nat)
    requires windowS > 0
    ensures 1 <= SecondsUntilWindowEnd(now, windowS) <= windowS
    ensures n >= SecondsUntilWindowEnd(now, windowS)
            <==> FixedWindowStart(now + n * 1000, windowS) != FixedWindowStart(now, windowS)
  {
    var start := FixedWindowStart(now, windowS);
    var k := now / 1000 / windowS;
    var end := start + windowS * 1000;
    if n < SecondsUntilWindowEnd(now, windowS) {
      assert now + n * 1000 < end;
      assert (k + 1) * windowS * 1000 == end;
      WindowStartUnique(now + n * 1000, windowS, k);
    } else {
      assert now + n * 1000 >= end;
    }
  }

  /**
   * The cooldown hint is exactly the least number of whole seconds after
   * which the cooldown has elapsed.
   */
  lemma CooldownHintIsLeast(last: int, now: int, cooldownS: int, n: nat)
    ensures n >= CooldownRemainingS(last, now, cooldownS)
            <==> CooldownRemainingS(last, now + n * 1000, cooldownS) == 0
  {
  }
}
