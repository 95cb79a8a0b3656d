/**
 * Weekly access windows, evaluated in UTC. The code works on weekday and
 * minute of day; the reference meaning is a set of minutes of the week, with
 * Monday 00:00 as minute 0.
 */
module Windows {
  import opened Common

  datatype Window = Window(days: string, from: string, to: string)

  const DAY_MINUTES := 1440
  const WEEK_MINUTES := 10080
  const WEEK_SECONDS := 604800

  const DAY_NAMES: seq<string> := ["mon", "tue", "wed", "thu", "fri", "sat", "sun"]

  // -- "HH:MM" ---------------------------------------------------------------------

  function Digit(c: char): int {
    c as int - '0' as int
  }

  predicate IsDigitChar(c: char) {
    '0' <= c <= '9'
  }

  /** Minutes since midnight; "24:00" is the end of the day. */
  function ParseHM(s: string): Option<int> {
    if |s| != 5 || s[2] != ':' then None
    else if !IsDigitChar(s[0]) || !IsDigitChar(s[1]) || !IsDigitChar(s[3]) || !IsDigitChar(s[4]) then None
    else
      var h, m := Digit(s[0]) * 10 + Digit(s[1]), Digit(s[3]) * 10 + Digit(s[4]);
      if h == 24 && m == 0 then Some(1440)
      else if h > 23 || m > 59 then None
      else Some(h * 60 + m)
  }

  function DigitChar(d: int): char
    requires 0 <= d <= 9
  {
    '0' + d as char
  }

  function FormatHM(n: int): string
    requires 0 <= n <= DAY_MINUTES
  {
    var h, m := n / 60, n % 60;
    [DigitChar(h / 10), DigitChar(h % 10), ':', DigitChar(m / 10), DigitChar(m % 10)]
  }

  /** Valid times and the numbers 0..1440 correspond one to one. */
  lemma TimesAreABijection(s: string, n: int)
    ensures 0 <= n <= DAY_MINUTES ==> ParseHM(FormatHM(n)) == Some(n)
    ensures ParseHM(s) == Some(n) ==> 0 <= n <= DAY_MINUTES && s == FormatHM(n)
  {
    if ParseHM(s) == Some(n) {
      var h, m := Digit(s[0]) * 10 + Digit(s[1]), Digit(s[3]) * 10 + Digit(s[4]);
      assert n == h * 60 + m;
      assert n / 60 == h && n % 60 == m;
      assert DigitChar(h / 10) == s[0] && DigitChar(h % 10) == s[1];
      assert DigitChar(m / 10) == s[3] && DigitChar(m % 10) == s[4];
    }
  }

  // -- "mon-fri" -------------------------------------------------------------------

  function IndexFrom(name: string, i: nat): (r: int)
    requires i <= 7
    ensures r == -1 || (i <= r < 7 && DAY_NAMES[r] == name)
    ensures r == -1 ==> forall j :: i <= j < 7 ==> DAY_NAMES[j] != name
    decreases 7 - i
  {
    if i == 7 then -1 else if DAY_NAMES[i] == name then i else IndexFrom(name, i + 1)
  }

  function DayIndex(name: string): int {
    IndexFrom(name, 0)
  }

  /** An inclusive range of days in week order, without wrap-around. */
  function ParseDays(s: string): Option<(int, int)> {
    var n := IndexOf(s, '-');
    var lo := DayIndex(s[..n]);
    var hi := if n < |s| then DayIndex(s[n + 1..]) else lo;
    if lo >= 0 && hi >= lo then Some((lo, hi)) else None
  }

  predicate Names(s: string, lo: int, hi: int) {
    && 0 <= lo <= hi < 7
    && (s == DAY_NAMES[lo] + "-" + DAY_NAMES[hi] || (lo == hi && s == DAY_NAMES[lo]))
  }

  lemma DayIndexInverse(i: int)
    requires 0 <= i < 7
    ensures DayIndex(DAY_NAMES[i]) == i
    ensures forall j :: 0 <= j < |DAY_NAMES[i]| ==> DAY_NAMES[i][j] != '-'
  {
    assert DAY_NAMES[DayIndex(DAY_NAMES[i])] == DAY_NAMES[i];
    DayNamesDiffer(DayIndex(DAY_NAMES[i]), i);
  }

  lemma DayNamesDiffer(i: int, j: int)
    requires 0 <= i < 7 && 0 <= j < 7 && DAY_NAMES[i] == DAY_NAMES[j]
    ensures i == j
  {
    assert DAY_NAMES[i][0] == DAY_NAMES[j][0] && DAY_NAMES[i][1] == DAY_NAMES[j][1];
  }

  /** A day string is accepted, as the range lo..hi, exactly when it names that range. */
  lemma DaysParseExactly(s: string, lo: int, hi: int)
    ensures ParseDays(s) == Some((lo, hi)) <==> Names(s, lo, hi)
  {
    var n := IndexOf(s, '-');
    if ParseDays(s) == Some((lo, hi)) {
      assert s[..n] == DAY_NAMES[lo];
      if n < |s| {
        assert s == s[..n] + "-" + s[n + 1..];
      } else {
        assert s[..n] == s;
      }
    }
    if Names(s, lo, hi) {
      DayIndexInverse(lo);
      DayIndexInverse(hi);
      var a := DAY_NAMES[lo];
      if s == a + "-" + DAY_NAMES[hi] {
        assert s[|a|] == '-' && forall i :: 0 <= i < |a| ==> s[i] == a[i];
        assert n == |a|;
        assert s[..n] == a && s[n + 1..] == DAY_NAMES[hi];
      } else {
        assert n == |s| && s[..n] == s;
      }
    }
  }

  // -- Membership --------------------------------------------------------------------

  /** Mon..sun as 0..6; the epoch fell on a Thursday. */
  function WeekDay(now: int): int {
    (now / 86400 + 3) % 7
  }

  function MinuteOfDay(now: int): int {
    now / 60 % DAY_MINUTES
  }

  function MinuteOfWeek(now: int): int {
    (now / 60 + 3 * DAY_MINUTES) % WEEK_MINUTES
  }

  /** The minutes of the week one window stands for; a malformed window stands for none. */
  ghost function Minutes(w: Window): set<int> {
    var days, from, to := ParseDays(w.days), ParseHM(w.from), ParseHM(w.to);
    if days.None? || from.None? || to.None? then {}
    else set t | 0 <= t < WEEK_MINUTES && days.value.0 <= t / DAY_MINUTES <= days.value.1
                 && from.value <= t % DAY_MINUTES < to.value
  }

  ghost predicate Open(ws: seq<Window>, now: int) {
    exists i :: 0 <= i < |ws| && MinuteOfWeek(now) in Minutes(ws[i])
  }

  lemma MinuteOfWeekSplits(now: int)
    ensures 0 <= MinuteOfWeek(now) < WEEK_MINUTES
    ensures MinuteOfWeek(now) / DAY_MINUTES == WeekDay(now) && MinuteOfWeek(now) % DAY_MINUTES == MinuteOfDay(now)
  {
    var m := now / 60;
    var d := now / 86400;
    assert d == m / 1440;
    assert m == 1440 * d + MinuteOfDay(now);
    var w := (d + 3) / 7;
    assert d + 3 == 7 * w + WeekDay(now);
    assert m + 4320 == 10080 * w + 1440 * WeekDay(now) + MinuteOfDay(now);
    assert MinuteOfWeek(now) == 1440 * WeekDay(now) + MinuteOfDay(now);
  }

  /** Windows repeat every week. */
  lemma WindowsAreWeekly(ws: seq<Window>, now: int, weeks: int)
    ensures Open(ws, now + weeks * WEEK_SECONDS) <==> Open(ws, now)
  {
    assert (now + weeks * WEEK_SECONDS) / 60 == now / 60 + weeks * WEEK_MINUTES;
    assert MinuteOfWeek(now + weeks * WEEK_SECONDS) == MinuteOfWeek(now) by {
      ModShift(now / 60 + 3 * DAY_MINUTES, weeks);
    }
  }

  lemma ModShift(a: int, k: int)
    ensures (a + k * WEEK_MINUTES) % WEEK_MINUTES == a % WEEK_MINUTES
  {
    var q := a / WEEK_MINUTES;
    assert a + k * WEEK_MINUTES == (q + k) * WEEK_MINUTES + a % WEEK_MINUTES;
  }

  /** The code's evaluation agrees with membership in the union of the windows. */
  method InAnyWindow(ws: seq<Window>, now: int) returns (r: bool)
    ensures r <==> Open(ws, now)
  {
    var day, minute := WeekDay(now), MinuteOfDay(now);
    MinuteOfWeekSplits(now);
    for i := 0 to |ws|
      invariant forall j :: 0 <= j < i ==> MinuteOfWeek(now) !in Minutes(ws[j])
    {
      var days := ParseDays(ws[i].days);
      if days.None? || day < days.value.0 || day > days.value.1 {
        continue;
      }
      var from, to := ParseHM(ws[i].from), ParseHM(ws[i].to);
      if from.None? || to.None? {
        continue;
      }
      if from.value <= minute < to.value {
        return true;
      }
    }
    return false;
  }

  /** How a time of day is written and read. */
  lemma TimesRead(h: nat, m: nat)
    requires h < 24 && m < 60
    ensures var digit := (d: int) requires 0 <= d < 10 => '0' + d as char;
            ParseHM([digit(h / 10), digit(h % 10), ':', digit(m / 10), digit(m % 10)]) == Some(60 * h + m)
    ensures ParseHM("24:00") == Some(1440) && ParseHM("24:01") == None
  {
  }

  /** The names of the days, from Monday on. */
  lemma DaysAreNamed(i: nat)
    requires i < 7
    ensures ParseDays(["mon", "tue", "wed", "thu", "fri", "sat", "sun"][i]) == Some((i, i))
  {
    var name := ["mon", "tue", "wed", "thu", "fri", "sat", "sun"][i];
    DaysParseExactly(name, i, i);
    hide ParseDays;
  }

  /** Seconds since the last Monday, 00:00 UTC; the first one was 4 days after the epoch. */
  function SinceMonday(now: int): int {
    (now - 345_600) % 604_800
  }

  /**
   * A window from lo to hi is open exactly on these days, from its first
   * second on and no longer in the second it ends.
   */
  lemma WindowIsOpen(w: Window, lo: int, hi: int, from: int, to: int, now: int)
    requires ParseDays(w.days) == Some((lo, hi)) && ParseHM(w.from) == Some(from) && ParseHM(w.to) == Some(to)
    ensures Open([w], now)
            <==> exists day :: lo <= day <= hi
                               && day * 86_400 + from * 60 <= SinceMonday(now) < day * 86_400 + to * 60
  {
    MinuteOfWeekSplits(now);
    TimesAreABijection(w.from, from);
    TimesAreABijection(w.to, to);
    DaysParseExactly(w.days, lo, hi);
    MondaysAgree(now);
    hide ParseDays, ParseHM, MinuteOfWeek;
    var t, s := MinuteOfWeek(now), SinceMonday(now);
    assert Open([w], now) <==> t in Minutes(w) by {
      assert [w][0] == w;
    }
    var day := t / DAY_MINUTES;
    assert t in Minutes(w) <==> lo <= day <= hi && from <= t % DAY_MINUTES < to;
    assert day * 86_400 + from * 60 <= s < day * 86_400 + to * 60 <==> from <= t % DAY_MINUTES < to;
    forall other | lo <= other <= hi && other * 86_400 + from * 60 <= s < other * 86_400 + to * 60
      ensures other == day
    {
    }
  }

  lemma MondaysAgree(now: int)
    ensures MinuteOfWeek(now) * 60 <= SinceMonday(now) < MinuteOfWeek(now) * 60 + 60
  {
    var a := now - 345_600;
    var s := SinceMonday(now);
    var q := a / 604_800;
    assert a == q * 604_800 + s;
    assert now / 60 == (q * 604_800 + s + 345_600) / 60 == q * 10_080 + s / 60 + 5_760;
    var m := s / 60;
    assert 0 <= m < WEEK_MINUTES;
    assert now / 60 + 3 * DAY_MINUTES == (q + 1) * WEEK_MINUTES + m;
    ModShift(m, q + 1);
  }

  const EVERY_DAY := [Window("mon-sun", "00:00", "24:00")]

  /** The window the gateway issues covers every instant. */
  lemma EveryDayIsAlwaysOpen(now: int)
    ensures Open(EVERY_DAY, now)
  {
    hide IndexOf, DayIndex, ParseDays;
    DaysParseExactly("mon-sun", 0, 6);
    assert Names("mon-sun", 0, 6);
    assert ParseHM("00:00") == Some(0) && ParseHM("24:00") == Some(1440);
    MinuteOfWeekSplits(now);
    assert MinuteOfWeek(now) in Minutes(EVERY_DAY[0]);
  }
}
