/**
 * The reminder-window arithmetic of utils/time.ts.
 *
 * utils/time.ts reads the wall clock with `new Date()`; here the local clock
 * reading is a parameter. A projected reminder time is a day offset from
 * today (0 or 1) together with a clock time, which is what the
 * `setDate`/`setHours` calls of utils/time.ts produce.
 */
module ReminderTime {
  import opened Wrappers

  /** First hour of the reminder window. */
  const START_HOUR: int := 9
  /** Last hour of the reminder window; the window includes it. */
  const END_HOUR: int := 18

  const MS_PER_SECOND: int := 1000
  const MS_PER_HOUR: int := 3600000
  const MS_PER_DAY: int := 86400000

  type Hour = h: int | 0 <= h < 24
  type Minute = m: int | 0 <= m < 60
  type Second = s: int | 0 <= s < 60
  type Millisecond = ms: int | 0 <= ms < 1000

  /** A local wall-clock reading, as `getHours`, `getMinutes`, ... return it. */
  datatype ClockTime = ClockTime(hour: Hour, minute: Minute, second: Second, millisecond: Millisecond)

  /** A local instant, counted in whole days after today plus a clock time. */
  datatype LocalInstant = LocalInstant(dayOffset: nat, time: ClockTime)

  function MillisOfDay(t: ClockTime): (r: int)
    ensures 0 <= r < MS_PER_DAY
  {
    ((t.hour * 60 + t.minute) * 60 + t.second) * 1000 + t.millisecond
  }

  /** Milliseconds elapsed since the start of today. */
  function Millis(i: LocalInstant): (ms: int)
  {
    i.dayOffset * MS_PER_DAY + MillisOfDay(i.time)
  }

  /** The top of an hour: minutes, seconds and milliseconds all zero. */
  function OnTheHour(h: Hour): (t: ClockTime)
  {
    ClockTime(h, 0, 0, 0)
  }

  /** `isWithinReminderPeriod`: both ends of the window are included. */
  function IsWithinReminderPeriod(hour: int): (r: bool)
    ensures r <==> START_HOUR <= hour <= END_HOUR
  {
    hour >= START_HOUR && hour <= END_HOUR
  }

  /** An instant at which a reminder is due: the top of an in-window hour. */
  predicate IsReminderSlot(i: LocalInstant)
  {
    i.time == OnTheHour(i.time.hour) && IsWithinReminderPeriod(i.time.hour)
  }

  /**
   * `getNextReminderTime`: before the window, today at its start; at or after
   * END_HOUR, tomorrow at the window start; otherwise the top of the next hour.
   */
  function NextReminderTime(now: ClockTime): (next: LocalInstant)
    ensures IsReminderSlot(next)
    ensures Millis(next) > Millis(LocalInstant(0, now))
    ensures now.hour < START_HOUR ==> next == LocalInstant(0, OnTheHour(START_HOUR))
    ensures now.hour >= END_HOUR ==> next == LocalInstant(1, OnTheHour(START_HOUR))
    ensures START_HOUR <= now.hour < END_HOUR ==>
              next == LocalInstant(0, OnTheHour(now.hour + 1)) && START_HOUR < next.time.hour <= END_HOUR
  {
    if now.hour < START_HOUR then
      LocalInstant(0, OnTheHour(START_HOUR))
    else if now.hour >= END_HOUR then
      LocalInstant(1, OnTheHour(START_HOUR))
    else
      LocalInstant(0, OnTheHour(now.hour + 1))
  }

  /**
   * The projection is the earliest reminder slot strictly after `now`:
   * no top of an in-window hour, today or on any later day, lies between them.
   */
  lemma NextReminderIsEarliestSlot(now: ClockTime, slot: LocalInstant)
    requires IsReminderSlot(slot)
    requires Millis(slot) > Millis(LocalInstant(0, now))
    ensures Millis(NextReminderTime(now)) <= Millis(slot)
  {
  }

  /**
   * The countdown shown by the widget: time from `now` to the projected
   * reminder. It is positive and at most 15 hours (reached at 18:00:00.000).
   */
  function CountdownMs(now: ClockTime): (ms: int)
    ensures 0 < ms <= 15 * MS_PER_HOUR
  {
    Millis(NextReminderTime(now)) - Millis(LocalInstant(0, now))
  }

  // ---------------------------------------------------------------------------
  // formatCountdown

  /** The fields of a countdown: whole hours, minutes and seconds. */
  datatype Hms = Hms(hours: nat, minutes: nat, seconds: nat)

  function TotalSeconds(t: Hms): (total: int)
  {
    t.hours * 3600 + t.minutes * 60 + t.seconds
  }

  /** Splits a number of seconds the way `formatCountdown` does. */
  function SplitSeconds(total: nat): (t: Hms)
    ensures t.hours * 3600 + t.minutes * 60 + t.seconds == total
    ensures t.minutes < 60 && t.seconds < 60
  {
    SecondsOfHour(total);
    Hms(total / 3600, (total % 3600) / 60, total % 60)
  }

  /** Taking whole hours out of a number of seconds keeps its seconds-of-minute. */
  lemma SecondsOfHour(total: nat)
    ensures total == (total / 3600) * 3600 + ((total % 3600) / 60) * 60 + total % 60
  {
    // Spelled out so that the solver need not find the nested remainder itself.
    var q, r := total / 3600, total % 3600;
    var k := q * 60 + r / 60;
    assert total == k * 60 + r % 60;
    RemainderOf60(total, k, r % 60);
  }

  lemma RemainderOf60(a: int, k: int, b: int)
    requires a == k * 60 + b && 0 <= b < 60
    ensures a % 60 == b
  {
  }

  predicate IsDigit(c: char)
  {
    '0' <= c <= '9'
  }

  predicate AllDigits(s: string)
  {
    forall i :: 0 <= i < |s| ==> IsDigit(s[i])
  }

  function DigitChar(d: int): (c: char)
    requires 0 <= d < 10
    ensures IsDigit(c)
  {
    ['0', '1', '2', '3', '4', '5', '6', '7', '8', '9'][d]
  }

  function DigitValue(c: char): (d: nat)
    requires IsDigit(c)
    ensures d < 10
  {
    (c as int) - ('0' as int)
  }

  /** The number a string of decimal digits denotes; leading zeros are allowed. */
  function DigitsValue(s: string): (n: nat)
    requires AllDigits(s)
  {
    if s == [] then 0 else DigitsValue(s[..|s| - 1]) * 10 + DigitValue(s[|s| - 1])
  }

  /** `n.toString()` for a non-negative integer: shortest decimal form. */
  function DecimalString(n: nat): (s: string)
    ensures |s| >= 1 && AllDigits(s)
    ensures DigitsValue(s) == n
    ensures s[0] == '0' ==> n == 0
    ensures |s| == 1 <==> n < 10
    ensures 10 <= n < 100 ==> |s| == 2
  {
    if n < 10 then
      assert DigitValue(DigitChar(n)) == n by {
        assert DigitChar(n) as int == '0' as int + n;
      }
      [DigitChar(n)]
    else
      var d := DigitChar(n % 10);
      assert DigitValue(d) == n % 10 by {
        assert d as int == '0' as int + n % 10;
      }
      var s := DecimalString(n / 10) + [d];
      assert s[..|s| - 1] == DecimalString(n / 10);
      s
  }

  /** `s.padStart(2, '0')` for a non-empty string. */
  function PadStart2(s: string): (r: string)
    requires |s| >= 1
    ensures |r| == if |s| >= 2 then |s| else 2
    ensures r[|r| - |s|..] == s
    ensures forall i :: 0 <= i < |r| - |s| ==> r[i] == '0'
  {
    if |s| >= 2 then s else ['0'] + s
  }

  /** `formatCountdown`: "HH:MM:SS", each field padded to two digits. */
  function FormatCountdown(ms: int): (r: string)
  {
    if ms < 0 then "00:00:00"
    else
      var t := SplitSeconds(ms / MS_PER_SECOND);
      PadStart2(DecimalString(t.hours)) + ":" + PadStart2(DecimalString(t.minutes)) + ":"
        + PadStart2(DecimalString(t.seconds))
  }

  /**
   * Reads back a countdown "H..H:MM:SS" (at least two hour digits) as a
   * number of seconds; the inverse of FormatCountdown.
   */
  function ParseCountdown(s: string): (r: Option<nat>)
  {
    if |s| < 8 || s[|s| - 6] != ':' || s[|s| - 3] != ':' then None
    else
      var hs, mm, ss := s[..|s| - 6], s[|s| - 5..|s| - 3], s[|s| - 2..];
      if AllDigits(hs) && AllDigits(mm) && AllDigits(ss) && DigitsValue(mm) < 60 && DigitsValue(ss) < 60 then
        Some(TotalSeconds(Hms(DigitsValue(hs), DigitsValue(mm), DigitsValue(ss))))
      else None
  }

  /** A two-digit field of the countdown reads back as the number it shows. */
  lemma PaddedField(n: nat)
    requires n < 60
    ensures |PadStart2(DecimalString(n))| == 2
    ensures AllDigits(PadStart2(DecimalString(n)))
    ensures DigitsValue(PadStart2(DecimalString(n))) == n
  {
  }

  /** The hours field reads back as the number of hours, however many digits. */
  lemma PaddedHours(n: nat)
    ensures |PadStart2(DecimalString(n))| >= 2
    ensures AllDigits(PadStart2(DecimalString(n)))
    ensures DigitsValue(PadStart2(DecimalString(n))) == n
    ensures n < 100 ==> |PadStart2(DecimalString(n))| == 2
  {
  }

  /** Parsing a joined "H..H:MM:SS" recovers the three fields. */
  lemma ParseJoined(h: string, m: string, s: string)
    requires |h| >= 2 && |m| == 2 && |s| == 2
    requires AllDigits(h) && AllDigits(m) && AllDigits(s)
    requires DigitsValue(m) < 60 && DigitsValue(s) < 60
    ensures ParseCountdown(h + ":" + m + ":" + s) == Some(TotalSeconds(Hms(DigitsValue(h), DigitsValue(m), DigitsValue(s))))
  {
    var r := h + ":" + m + ":" + s;
    assert |r| == |h| + 6;
    assert r[|h|] == ':' && r[|h| + 3] == ':';
    assert r[..|h|] == h;
    assert r[|h| + 1..|h| + 3] == m;
    assert r[|h| + 4..] == s;
    assert r[..|r| - 6] == h;
    assert r[|r| - 5..|r| - 3] == m;
    assert r[|r| - 2..] == s;
    assert !(|r| < 8 || r[|r| - 6] != ':' || r[|r| - 3] != ':');
  }

  /** The zero countdown is "00:00:00". */
  lemma ZeroDisplay()
    ensures PadStart2(DecimalString(0)) == "00"
    ensures FormatCountdown(0) == "00:00:00"
  {
  }

  /**
   * Round trip: the countdown string denotes exactly the whole seconds in
   * `ms`, and a negative duration shows as zero.
   */
  lemma FormatCountdownRoundTrip(ms: int)
    ensures ParseCountdown(FormatCountdown(ms)) == Some(if ms < 0 then 0 else ms / MS_PER_SECOND)
  {
    if ms < 0 {
      ZeroDisplay();
      ReadBackFields(0);
    } else {
      ReadBackFields(ms);
    }
  }

  lemma ReadBackFields(ms: nat)
    ensures ParseCountdown(FormatCountdown(ms)) == Some(ms / MS_PER_SECOND)
  {
    var t := SplitSeconds(ms / MS_PER_SECOND);
    var h, m, s := PadStart2(DecimalString(t.hours)), PadStart2(DecimalString(t.minutes)),
                   PadStart2(DecimalString(t.seconds));
    PaddedHours(t.hours);
    PaddedField(t.minutes);
    PaddedField(t.seconds);
    assert FormatCountdown(ms) == h + ":" + m + ":" + s;
    ParseJoined(h, m, s);
    assert Hms(DigitsValue(h), DigitsValue(m), DigitsValue(s)) == t;
    assert TotalSeconds(t) == ms / MS_PER_SECOND;
  }

  /** Below 100 hours the countdown is always eight characters, "HH:MM:SS". */
  lemma FormatCountdownLength(ms: int)
    requires ms < 100 * MS_PER_HOUR
    ensures |FormatCountdown(ms)| == 8
    ensures FormatCountdown(ms)[2] == ':' && FormatCountdown(ms)[5] == ':'
  {
  }

  /** Anything under one second, negative durations included, shows as zero. */
  lemma FormatCountdownUnderOneSecond(ms: int)
    requires ms < MS_PER_SECOND
    ensures FormatCountdown(ms) == "00:00:00"
  {
    if ms >= 0 {
      assert ms / MS_PER_SECOND == 0;
      ZeroDisplay();
    }
  }

  /** One hour, one minute and one second show as "01:01:01". */
  lemma FormatCountdownExample()
    ensures FormatCountdown(3661000) == "01:01:01"
  {
  }

  /**
   * The widget's countdown is always a well-formed eight-character display
   * whose hours field is at most 15.
   */
  lemma CountdownDisplay(now: ClockTime)
    ensures |FormatCountdown(CountdownMs(now))| == 8
    ensures ParseCountdown(FormatCountdown(CountdownMs(now))) == Some(CountdownMs(now) / MS_PER_SECOND)
    ensures CountdownMs(now) / MS_PER_SECOND <= 15 * 3600
  {
    FormatCountdownLength(CountdownMs(now));
    FormatCountdownRoundTrip(CountdownMs(now));
  }
}
