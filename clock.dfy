/**
 * Times of day written `HH:MM`, read with Go's layout `15:04`, and the
 * `HH:MM-HH:MM` windows the validator's messages show.
 */
module Clock {
  import opened Options
  import opened GoTime

  /** The text `15:04` accepts: one or two hour digits naming an hour below
      24, a colon, and exactly two minute digits naming a minute below 60. */
  predicate ClockText(s: string) {
    (|s| == 4 && IsDigit(s[0]) && s[1] == ':' && IsDigit(s[2]) && IsDigit(s[3]) && Digit(s[2]) < 6)
    || (|s| == 5 && IsDigit(s[0]) && IsDigit(s[1]) && 10 * Digit(s[0]) + Digit(s[1]) < 24
        && s[2] == ':' && IsDigit(s[3]) && IsDigit(s[4]) && Digit(s[3]) < 6)
  }

  /** The hour a clock text names. */
  function ClockHour(s: string): (h: nat)
    requires ClockText(s)
    ensures h < 24
  {
    if |s| == 4 then Digit(s[0]) else 10 * Digit(s[0]) + Digit(s[1])
  }

  /** The minute a clock text names. */
  function ClockMinute(s: string): (m: nat)
    requires ClockText(s)
    ensures m < 60
  {
    if |s| == 4 then 10 * Digit(s[2]) + Digit(s[3]) else 10 * Digit(s[3]) + Digit(s[4])
  }

  /** The minute of the day a clock text names. */
  function ClockValue(s: string): (v: nat)
    requires ClockText(s)
    ensures v < 1440
  {
    60 * ClockHour(s) + ClockMinute(s)
  }

  /** `time.Parse("15:04", s)` as a minute of the day, by the grammar the
      layout accepts; `ClockLayoutParse` proves it is the layout's parse. */
  function ParseClock(s: string): (r: Option<nat>)
    ensures r.Some? ==> r.value < 1440
  {
    if ClockText(s) then Some(ClockValue(s)) else None
  }

  /** Go's parse of `15:04` succeeds exactly on the clock texts, with the
      hour and minute they name on Go's starting date. */
  lemma ClockLayoutParse(s: string)
    ensures Parse(ClockLayout, s)
      == if ClockText(s) then Some(Unset.(hour := ClockHour(s), minute := ClockMinute(s))) else None
  {
    assert ClockLayout[1..] == [Lit(':'), ZeroMinute] && ClockLayout[1..][1..] == [ZeroMinute];
    assert [ZeroMinute][1..] == [];
    assert DaysIn(1, 0) == 31;
    if |s| >= 3 && IsDigit(s[0]) && IsDigit(s[1]) {
      assert s[2..][1..] == s[3..];
      if |s| >= 5 {
        assert s[3..][2..] == s[5..];
      }
    } else if |s| >= 2 && IsDigit(s[0]) {
      assert s[1..][1..] == s[2..];
      if |s| >= 4 {
        assert s[2..][2..] == s[4..];
      }
    }
  }

  /** `ParseClock` is the minute of the day of Go's parse. */
  lemma ParseClockIsLayoutParse(s: string)
    ensures ParseClock(s) == match Parse(ClockLayout, s)
      case None => None
      case Some(t) => Some(60 * t.hour + t.minute)
  {
    ClockLayoutParse(s);
  }

  /** `%02d:%02d` of a time's hour and minute, for a time given as minutes
      from midnight of its first day: the hour wraps past midnight. */
  function HourMinute(minutes: nat): (r: string)
    ensures |r| == 5 && r[2] == ':'
    ensures IsDigit(r[0]) && IsDigit(r[1]) && IsDigit(r[3]) && IsDigit(r[4])
  {
    TwoDigits((minutes / 60) % 24) + ":" + TwoDigits(minutes % 60)
  }

  /** A stretch of time from `start` to `end`, in minutes from midnight of
      the first day. */
  datatype Window = Window(start: nat, end: nat)

  /** The window text `%02d:%02d-%02d:%02d` of a window's start and end. */
  function WindowText(w: Window): (r: string)
    ensures |r| == 11 && r[5] == '-'
    ensures r[..5] == HourMinute(w.start) && r[6..] == HourMinute(w.end)
  {
    HourMinute(w.start) + "-" + HourMinute(w.end)
  }

  /** A number of minutes names the same minute of the day as its hour,
      taken modulo 24, and its minute. */
  lemma MinuteOfDay(minutes: nat)
    ensures minutes % 1440 == 60 * ((minutes / 60) % 24) + minutes % 60
  {
    var q, r := minutes / 60, minutes % 60;
    var days, hours := q / 24, q % 24;
    assert minutes == 60 * q + r;
    assert q == 24 * days + hours;
    assert minutes == 1440 * days + (60 * hours + r);
    assert 0 <= 60 * hours + r < 1440;
  }

  /** A rendered time is a clock text for the minute of the day it shows. */
  lemma HourMinuteText(minutes: nat)
    ensures ClockText(HourMinute(minutes)) && ClockValue(HourMinute(minutes)) == minutes % 1440
  {
    var h, m := (minutes / 60) % 24, minutes % 60;
    TwoDigitsScan(h);
    TwoDigitsScan(m);
    MinuteOfDay(minutes);
    var text := HourMinute(minutes);
    assert text[0..2] == TwoDigits(h) && text[3..5] == TwoDigits(m);
  }

  /** What `%02d:%02d` writes, `15:04` reads back as the same minute of
      the day. */
  lemma ParseHourMinute(minutes: nat)
    ensures ParseClock(HourMinute(minutes)) == Some(minutes % 1440)
  {
    HourMinuteText(minutes);
  }

  /** A window text is two times of day around a dash, each reading back
      as the minute of the day of its end of the window. */
  lemma ParseWindowText(w: Window)
    ensures |WindowText(w)| == 11 && WindowText(w)[5] == '-'
    ensures ParseClock(WindowText(w)[..5]) == Some(w.start % 1440)
    ensures ParseClock(WindowText(w)[6..]) == Some(w.end % 1440)
  {
    var text := WindowText(w);
    assert text[..5] == HourMinute(w.start) && text[6..] == HourMinute(w.end);
    ParseHourMinute(w.start);
    ParseHourMinute(w.end);
  }
}
