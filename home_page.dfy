/**
  The weekly draw countdown of the home page. The draw is open from Monday
  08:00 to Sunday 20:00 (both included) of the current week, where weeks
  start on Monday. Before the window the page counts hours, minutes and
  seconds to its start; inside it, days, hours, minutes and seconds to its
  end; after it, it says the draw is closed.

  An instant is given as the day of the week (0 for Sunday, as `getDay`
  returns it) and the milliseconds since local midnight; the countdown
  works on the milliseconds since Monday 00:00 of the same week.
*/
module HomePage {

  const SecondMs: int := 1000
  const MinuteMs: int := 60 * SecondMs
  const HourMs: int := 60 * MinuteMs
  const DayMs: int := 24 * HourMs
  const WeekMs: int := 7 * DayMs

  /** Monday 08:00:00.000 and Sunday 20:00:00.000, in milliseconds since Monday 00:00. */
  const WindowStart: int := 8 * HourMs
  const WindowEnd: int := 6 * DayMs + 20 * HourMs

  /** `(getDay() + 6) % 7`: 0 on Monday up to 6 on Sunday. */
  function DaysSinceMonday(day: int): (n: int)
    requires 0 <= day <= 6
    ensures 0 <= n <= 6
    ensures day == 1 <==> n == 0
    ensures day == 0 <==> n == 6
  {
    (day + 6) % 7
  }

  /** Counting from Monday is a relabelling of the days: `getDay` is recovered from it. */
  lemma DaysSinceMondayInverse(day: int)
    requires 0 <= day <= 6
    ensures (DaysSinceMonday(day) + 1) % 7 == day
  {
  }

  /** The instant as milliseconds since Monday 00:00 of its week. */
  function WeekTime(day: int, msOfDay: int): (t: int)
    requires 0 <= day <= 6 && 0 <= msOfDay < DayMs
    ensures 0 <= t < WeekMs
    ensures t / DayMs == DaysSinceMonday(day) && t % DayMs == msOfDay
  {
    DaysSinceMonday(day) * DayMs + msOfDay
  }

  /** The window is six and a half days long. */
  lemma WindowLength()
    ensures WindowEnd - WindowStart == 6 * DayMs + 12 * HourMs
  {
  }

  datatype Countdown =
    | StartsIn(hours: int, minutes: int, seconds: int)
    | Open(days: int, hours: int, minutes: int, seconds: int)
    | Closed

  /** `calculateCountdown` at now milliseconds after Monday 00:00. */
  function CountdownAt(now: int): (c: Countdown)
    requires 0 <= now < WeekMs
    ensures c.StartsIn? <==> now < WindowStart
    ensures c.Open? <==> WindowStart <= now <= WindowEnd
    ensures c.Closed? <==> WindowEnd < now
  {
    if now < WindowStart then
      var diff := WindowStart - now;
      StartsIn(diff / HourMs, (diff / MinuteMs) % 60, (diff / SecondMs) % 60)
    else if now <= WindowEnd then
      var diff := WindowEnd - now;
      Open(diff / DayMs, (diff / HourMs) % 24, (diff / MinuteMs) % 60, (diff / SecondMs) % 60)
    else
      Closed
  }

  /** Whole seconds of a countdown. */
  function OpenSeconds(c: Countdown): int
    requires c.Open?
  {
    c.days * 86400 + c.hours * 3600 + c.minutes * 60 + c.seconds
  }

  function StartsInSeconds(c: Countdown): int
    requires c.StartsIn?
  {
    c.hours * 3600 + c.minutes * 60 + c.seconds
  }

  /**
    The open countdown is a proper clock reading: hours below 24, minutes
    and seconds below 60, at most 6 days, and together exactly the whole
    seconds left until Sunday 20:00.
  */
  lemma OpenDecomposition(now: int)
    requires 0 <= now < WeekMs && WindowStart <= now <= WindowEnd
    ensures var c := CountdownAt(now);
            && 0 <= c.days <= 6 && 0 <= c.hours < 24 && 0 <= c.minutes < 60 && 0 <= c.seconds < 60
            && OpenSeconds(c) == (WindowEnd - now) / SecondMs
  {
    var diff := WindowEnd - now;
    Decompose(diff);
  }

  /**
    The "starts in" countdown appears only on Monday before 08:00; it then
    shows at most 8 hours (8 only at midnight itself, as "8h 0m 0s"),
    minutes and seconds below 60, and together the whole seconds left
    until 08:00.
  */
  lemma StartsInOnlyMondayMorning(day: int, msOfDay: int)
    requires 0 <= day <= 6 && 0 <= msOfDay < DayMs
    ensures var c := CountdownAt(WeekTime(day, msOfDay));
            && (c.StartsIn? <==> day == 1 && msOfDay < WindowStart)
            && (c.StartsIn? ==>
                  && 0 <= c.hours <= 8 && 0 <= c.minutes < 60 && 0 <= c.seconds < 60
                  && (c.hours == 8 <==> msOfDay == 0)
                  && StartsInSeconds(c) == (WindowStart - msOfDay) / SecondMs)
  {
    var t := WeekTime(day, msOfDay);
    if t < WindowStart {
      assert day == 1 && t == msOfDay;
      StartsInClock(WindowStart - msOfDay);
    }
  }

  /** The "starts in" reading of a positive difference of at most 8 hours. */
  lemma StartsInClock(diff: int)
    requires 0 < diff <= WindowStart
    ensures var hours := diff / HourMs;
            var minutes := (diff / MinuteMs) % 60;
            var seconds := (diff / SecondMs) % 60;
            && 0 <= hours <= 8 && 0 <= minutes < 60 && 0 <= seconds < 60
            && (hours == 8 <==> diff == WindowStart)
            && hours * 3600 + minutes * 60 + seconds == diff / SecondMs
  {
    Decompose(diff);
    assert diff / DayMs == 0;
    assert diff / HourMs < 24;
  }

  /** The closed message appears exactly on Sunday after 20:00. */
  lemma ClosedOnlySundayEvening(day: int, msOfDay: int)
    requires 0 <= day <= 6 && 0 <= msOfDay < DayMs
    ensures CountdownAt(WeekTime(day, msOfDay)).Closed? <==> day == 0 && msOfDay > 20 * HourMs
  {
  }

  /** The split of a non-negative millisecond count into days, hours, minutes and seconds. */
  lemma Decompose(diff: int)
    requires diff >= 0
    ensures var s := diff / SecondMs;
            && diff / MinuteMs == s / 60
            && diff / HourMs == s / 3600
            && diff / DayMs == s / 86400
            && (diff / DayMs) * 86400 + ((diff / HourMs) % 24) * 3600
               + ((diff / MinuteMs) % 60) * 60 + (diff / SecondMs) % 60 == s
  {
    var s := diff / 1000;
    var ms := diff % 1000;
    var minutes := s / 60;
    var hours := minutes / 60;
    var days := hours / 24;
    assert s == minutes * 60 + s % 60;
    assert minutes == hours * 60 + minutes % 60;
    assert hours == days * 24 + hours % 24;
    DivUnique(diff, 60000, minutes, (s % 60) * 1000 + ms);
    DivUnique(s, 3600, hours, (minutes % 60) * 60 + s % 60);
    DivUnique(diff, 3600000, hours, ((minutes % 60) * 60 + s % 60) * 1000 + ms);
    DivUnique(s, 86400, days, (hours % 24) * 3600 + (minutes % 60) * 60 + s % 60);
    DivUnique(diff, 86400000, days, ((hours % 24) * 3600 + (minutes % 60) * 60 + s % 60) * 1000 + ms);
  }

  /** Integer division is determined by any quotient and remainder that fit. */
  lemma DivUnique(a: int, d: int, q: int, r: int)
    requires d > 0 && 0 <= r < d && a == q * d + r
    ensures a / d == q
  {
    var q' := a / d;
    var r' := a % d;
    assert a == q' * d + r';
    if q' < q {
      MulDistrib(q - q', q', d);
      MulAtLeast(q - q', d);
    } else if q < q' {
      MulDistrib(q' - q, q, d);
      MulAtLeast(q' - q, d);
    }
  }

  lemma MulDistrib(k: int, b: int, d: int)
    ensures (k + b) * d == k * d + b * d
  {
  }

  lemma MulAtLeast(k: int, d: int)
    requires k >= 1 && d > 0
    ensures k * d >= d
  {
    MulDistrib(k - 1, 1, d);
    assert (k - 1) * d >= 0;
  }

  // ---------------------------------------------------------------------
  // The page divides in floating point and floors the remainder
  // ---------------------------------------------------------------------

  /** JavaScript's `%` on non-negative numbers: what is left after taking out whole multiples of m. */
  function RealMod(x: real, m: real): real
    requires x >= 0.0 && m > 0.0
  {
    x - m * (x / m).Floor as real
  }

  /**
    `Math.floor((diff / unit) % m)` on reals is the integer
    `(diff / unit) % m`, so the integer arithmetic above is what the page
    computes.
  */
  lemma FloorOfRealMod(diff: int, unit: int, m: int)
    requires diff >= 0 && unit > 0 && m > 0
    ensures RealMod(diff as real / unit as real, m as real).Floor == (diff / unit) % m
  {
    var x := diff as real / unit as real;
    var q := diff / unit;
    FloorOfQuotient(diff, unit);
    assert x.Floor == q;
    var Q := q / m;
    assert (x / m as real).Floor == Q by {
      FloorOfQuotientReal(x, q, m);
    }
    assert RealMod(x, m as real) == x - m as real * Q as real;
    assert x - m as real * Q as real == (q % m) as real + (x - q as real) by {
      assert q == Q * m + q % m;
      assert (Q * m) as real == Q as real * m as real;
    }
  }

  /** The floor of an exact quotient is the integer quotient. */
  lemma FloorOfQuotient(a: int, b: int)
    requires a >= 0 && b > 0
    ensures (a as real / b as real).Floor == a / b
  {
    var q := a / b;
    assert q * b <= a < (q + 1) * b;
    FloorBetweenMultiples(a as real, q, b);
  }

  /** For q the floor of x, the floor of x / m is q / m. */
  lemma FloorOfQuotientReal(x: real, q: int, m: int)
    requires 0.0 <= x && x.Floor == q && m > 0
    ensures (x / m as real).Floor == q / m
  {
    var Q := q / m;
    assert Q * m <= q < (Q + 1) * m;
    assert (Q * m) as real <= x < ((Q + 1) * m) as real;
    FloorBetweenMultiples(x, Q, m);
  }

  /** A value between n·m and (n+1)·m, divided by m, has floor n. */
  lemma FloorBetweenMultiples(x: real, n: int, m: int)
    requires m > 0 && (n * m) as real <= x < ((n + 1) * m) as real
    ensures (x / m as real).Floor == n
  {
    var c := m as real;
    var y := x / c;
    var n1 := n + 1;
    CastMul(n, m);
    CastMul(n1, m);
    DivTimes(x, c);
    assert x < n1 as real * c;
    MulCancel(n as real, y, c);
    MulCancel(y, n1 as real, c);
    assert n as real <= y < n as real + 1.0;
  }

  lemma CastMul(a: int, b: int)
    ensures (a * b) as real == a as real * b as real
  {
  }

  lemma DivTimes(x: real, c: real)
    requires c > 0.0
    ensures x / c * c == x
  {
  }

  lemma MulCancel(a: real, b: real, c: real)
    requires c > 0.0
    ensures a * c <= b * c ==> a <= b
    ensures a * c < b * c ==> a < b
  {
  }
}
