/**
 * Upgrade dates: the layout `2 Jan 2006 15:04` (the constant `DateFormat`)
 * read and written in UTC, and the instant a date denotes.
 */
module Calendar {
  import opened Options
  import opened GoTime

  /** `time.Parse(DateFormat, s)`. */
  function ParseDate(s: string): (r: Option<DateTime>)
    ensures r.Some? ==> Valid(r.value)
  {
    Parse(DateLayout, s)
  }

  /** `t.Format(DateFormat)`: what it writes reads back as the same date. */
  function FormatDate(dt: DateTime): (r: string)
    requires Valid(dt)
    ensures ParseDate(r) == Some(dt)
  {
    FormatThenParse(dt);
    Format(DateLayout, dt)
  }

  /** The layout mentions every field. */
  lemma DateLayoutComplete(dt: DateTime)
    ensures Separated(DateLayout)
    ensures Overlay(DateLayout, dt, Unset) == dt
  {
    assert DateLayout[0] == Day && DateLayout[2] == Month && DateLayout[4] == LongYear
      && DateLayout[6] == Hour && DateLayout[8] == ZeroMinute;
  }

  /** A date written in the layout reads back as the same date. */
  lemma FormatThenParse(dt: DateTime)
    requires Valid(dt)
    ensures ParseDate(Format(DateLayout, dt)) == Some(dt)
  {
    DateLayoutComplete(dt);
    FormatThenParseLayout(DateLayout, dt, Unset);
  }

  /** The layout string is the reference time written in the layout, and
      reads as that time. */
  lemma ReferenceTimeRoundTrip()
    ensures ParseDate(DateFormat) == Some(DateTime(2006, 1, 2, 15, 4))
  {
    var reference := DateTime(2006, 1, 2, 15, 4);
    DateFormatIsReferenceTime();
    FormatThenParse(reference);
  }

  /** Days from 1 January of year 0 to 1 January of `year`. */
  function DaysBeforeYear(year: int): int
    requires year >= 0
  {
    365 * year + (year + 3) / 4 - (year + 99) / 100 + (year + 399) / 400
  }

  function DaysInYear(year: int): int {
    if IsLeap(year) then 366 else 365
  }

  /** Days from 1 January to the first day of `month`. */
  function DaysBeforeMonth(month: int, year: int): int
    requires 1 <= month <= 12
  {
    (match month
     case 1 => 0 case 2 => 31 case 3 => 59 case 4 => 90 case 5 => 120 case 6 => 151
     case 7 => 181 case 8 => 212 case 9 => 243 case 10 => 273 case 11 => 304 case _ => 334)
    + if month > 2 && IsLeap(year) then 1 else 0
  }

  /** Days from 1 January of year 0 to 1 January 1970. */
  const UnixEpochDay := 719528

  /** Minutes between the Unix epoch and the UTC instant `dt`. */
  function UnixMinutes(dt: DateTime): int
    requires Valid(dt)
  {
    (DaysBeforeYear(dt.year) + DaysBeforeMonth(dt.month, dt.year) + dt.day - 1 - UnixEpochDay) * 1440
      + 60 * dt.hour + dt.minute
  }

  /** Nanoseconds between the Unix epoch and the UTC instant `dt`, the
      scale of the clock reading the validator compares against. */
  function UnixNanos(dt: DateTime): int
    requires Valid(dt)
  {
    UnixMinutes(dt) * 60_000_000_000
  }

  /** Earlier in the calendar: by year, then month, day, hour and minute. */
  predicate Before(a: DateTime, b: DateTime) {
    a.year < b.year
    || (a.year == b.year && a.month < b.month)
    || (a.year == b.year && a.month == b.month && a.day < b.day)
    || (a.year == b.year && a.month == b.month && a.day == b.day && a.hour < b.hour)
    || (a.year == b.year && a.month == b.month && a.day == b.day && a.hour == b.hour && a.minute < b.minute)
  }

  /** The count of multiples of 4, 100 and 400 below a year grows by one
      exactly when the year is such a multiple. */
  lemma MultiplesStep4(year: int)
    requires year >= 0
    ensures (year + 4) / 4 - (year + 3) / 4 == if year % 4 == 0 then 1 else 0
  {
  }

  lemma MultiplesStep100(year: int)
    requires year >= 0
    ensures (year + 100) / 100 - (year + 99) / 100 == if year % 100 == 0 then 1 else 0
  {
  }

  lemma MultiplesStep400(year: int)
    requires year >= 0
    ensures (year + 400) / 400 - (year + 399) / 400 == if year % 400 == 0 then 1 else 0
  {
  }

  lemma Multiple400Is100(year: int)
    requires year >= 0 && year % 400 == 0
    ensures year % 100 == 0
  {
    var k := year / 400;
    assert year == 100 * (4 * k);
  }

  lemma Multiple100Is4(year: int)
    requires year >= 0 && year % 100 == 0
    ensures year % 4 == 0
  {
    var k := year / 100;
    assert year == 4 * (25 * k);
  }

  /** A year has as many days as `DaysBeforeYear` counts for it. */
  lemma YearLength(year: int)
    requires year >= 0
    ensures DaysBeforeYear(year + 1) == DaysBeforeYear(year) + DaysInYear(year)
  {
    var a := (year + 4) / 4 - (year + 3) / 4;
    var b := (year + 100) / 100 - (year + 99) / 100;
    var c := (year + 400) / 400 - (year + 399) / 400;
    assert DaysBeforeYear(year + 1) == DaysBeforeYear(year) + 365 + a - b + c;
    MultiplesStep4(year);
    MultiplesStep100(year);
    MultiplesStep400(year);
    if year % 400 == 0 {
      Multiple400Is100(year);
    }
    if year % 100 == 0 {
      Multiple100Is4(year);
    }
  }

  lemma {:induction false} YearsAdd(a: int, b: int)
    requires 0 <= a < b
    ensures DaysBeforeYear(a) + DaysInYear(a) <= DaysBeforeYear(b)
    decreases b - a
  {
    YearLength(a);
    if a + 1 < b {
      YearsAdd(a + 1, b);
    }
  }

  lemma MonthsAdd(m1: int, m2: int, year: int)
    requires 1 <= m1 < m2 <= 12
    ensures DaysBeforeMonth(m1, year) + DaysIn(m1, year) <= DaysBeforeMonth(m2, year)
  {
  }

  lemma MonthEnds(month: int, year: int)
    requires 1 <= month <= 12
    ensures DaysBeforeMonth(month, year) + DaysIn(month, year) <= DaysInYear(year)
  {
  }

  lemma EarlierInstant(a: DateTime, b: DateTime)
    requires Valid(a) && Valid(b) && Before(a, b)
    ensures UnixMinutes(a) < UnixMinutes(b)
  {
    var dayA := DaysBeforeYear(a.year) + DaysBeforeMonth(a.month, a.year) + a.day - 1;
    var dayB := DaysBeforeYear(b.year) + DaysBeforeMonth(b.month, b.year) + b.day - 1;
    if a.year < b.year {
      YearsAdd(a.year, b.year);
      MonthEnds(a.month, a.year);
      assert dayA < dayB;
    } else if a.month < b.month {
      MonthsAdd(a.month, b.month, a.year);
      assert dayA < dayB;
    }
  }

  /** The instant of a valid date grows with the calendar order, so the
      order of instants is the order of dates and different dates are
      different instants. */
  lemma UnixMinutesOrdered(a: DateTime, b: DateTime)
    requires Valid(a) && Valid(b)
    ensures Before(a, b) <==> UnixMinutes(a) < UnixMinutes(b)
    ensures a == b <==> UnixMinutes(a) == UnixMinutes(b)
  {
    if Before(a, b) {
      EarlierInstant(a, b);
    } else if Before(b, a) {
      EarlierInstant(b, a);
    }
  }

  /** The Unix epoch, 1 January 1970 at midnight UTC, is instant zero. */
  lemma EpochIsZero()
    ensures UnixMinutes(DateTime(1970, 1, 1, 0, 0)) == 0
  {
    assert DaysBeforeYear(1970) == UnixEpochDay;
  }

  /** The same time of day on the following calendar day. */
  function NextDay(dt: DateTime): (next: DateTime)
    requires Valid(dt) && dt.year < 9999
    ensures Valid(next) && Before(dt, next)
  {
    if dt.day < DaysIn(dt.month, dt.year) then dt.(day := dt.day + 1)
    else if dt.month < 12 then dt.(month := dt.month + 1, day := 1)
    else dt.(year := dt.year + 1, month := 1, day := 1)
  }

  /** Consecutive calendar days are 1440 minutes apart, across the ends of
      months and years. */
  lemma NextDayIsADayLater(dt: DateTime)
    requires Valid(dt) && dt.year < 9999
    ensures UnixMinutes(NextDay(dt)) == UnixMinutes(dt) + 1440
  {
    if dt.day == DaysIn(dt.month, dt.year) && dt.month == 12 {
      YearLength(dt.year);
    }
  }

  /** Two times on the same calendar day are as many minutes apart as
      their clock readings. */
  lemma SameDayMinutes(a: DateTime, b: DateTime)
    requires Valid(a) && Valid(b) && a.year == b.year && a.month == b.month && a.day == b.day
    ensures UnixMinutes(b) - UnixMinutes(a) == 60 * (b.hour - a.hour) + (b.minute - a.minute)
  {
  }

  /** The nanosecond clock the upgrade date is compared against orders
      dates as the calendar does. */
  lemma UnixNanosOrdered(a: DateTime, b: DateTime)
    requires Valid(a) && Valid(b)
    ensures Before(a, b) <==> UnixNanos(a) < UnixNanos(b)
    ensures a == b <==> UnixNanos(a) == UnixNanos(b)
    ensures UnixNanos(DateTime(1970, 1, 1, 0, 0)) == 0
  {
    UnixMinutesOrdered(a, b);
    EpochIsZero();
  }
}
