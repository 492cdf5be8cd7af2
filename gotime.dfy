/**
 * Go's `time.Parse` and `Time.Format` (UTC, no zone element) for layouts made
 * of the elements `2` (day), `Jan` (month name), `2006` (year), `15` (hour),
 * `04` (minute) and literal runes: the two layouts the validator uses.
 * As in Go, a layout is read element by element; a date that was never read
 * keeps Go's starting values, year 0, January the first, midnight.
 */
module GoTime {
  import opened Options

  predicate IsDigit(c: char) {
    '0' <= c <= '9'
  }

  function Digit(c: char): (d: nat)
    requires IsDigit(c)
    ensures d < 10
  {
    c as int - '0' as int
  }

  function DigitChar(d: nat): (c: char)
    requires d < 10
    ensures IsDigit(c) && Digit(c) == d
  {
    (d + '0' as int) as char
  }

  /** A number read from the front of a string, and what follows it. */
  datatype Scanned = Scanned(value: nat, rest: string)

  /** Go's `getnum`: a leading digit, and a second one when present;
      `fixed` demands exactly two digits. */
  function GetNum(s: string, fixed: bool): (r: Option<Scanned>)
    ensures r.None? <==> |s| == 0 || !IsDigit(s[0]) || (fixed && (|s| == 1 || !IsDigit(s[1])))
    ensures r.Some? ==> r.value.value < 100
    ensures r.Some? && fixed ==> r.value.rest == s[2..]
    ensures r.Some? ==> r.value.rest == s[1..] || (|s| >= 2 && r.value.rest == s[2..])
  {
    if |s| == 0 || !IsDigit(s[0]) then None
    else if |s| == 1 || !IsDigit(s[1]) then
      if fixed then None else Some(Scanned(Digit(s[0]), s[1..]))
    else Some(Scanned(10 * Digit(s[0]) + Digit(s[1]), s[2..]))
  }

  /** The fields a parse fills in. */
  datatype DateTime = DateTime(year: int, month: int, day: int, hour: int, minute: int)

  /** Go's starting values for fields the layout does not mention. */
  const Unset := DateTime(0, 1, 1, 0, 0)

  /** Gregorian leap years. */
  predicate IsLeap(year: int) {
    year % 4 == 0 && (year % 100 != 0 || year % 400 == 0)
  }

  function DaysIn(month: int, year: int): (n: int)
    requires 1 <= month <= 12
    ensures 28 <= n <= 31
    ensures n == 29 <==> month == 2 && IsLeap(year)
  {
    if month == 2 then (if IsLeap(year) then 29 else 28)
    else if month == 4 || month == 6 || month == 9 || month == 11 then 30
    else 31
  }

  /** What a successful parse can return. */
  predicate Valid(t: DateTime) {
    0 <= t.year <= 9999 && 1 <= t.month <= 12 && 1 <= t.day <= DaysIn(t.month, t.year)
    && 0 <= t.hour < 24 && 0 <= t.minute < 60
  }

  /** What the fields hold while a layout is read: the day is checked only
      at the end. */
  predicate InRange(t: DateTime) {
    0 <= t.year <= 9999 && 1 <= t.month <= 12 && 0 <= t.day < 100
    && 0 <= t.hour < 24 && 0 <= t.minute < 60
  }

  /** The layout elements used here: Go's stdDay `2`, stdMonth `Jan`,
      stdLongYear `2006`, stdHour `15` and stdZeroMinute `04`, and a
      literal rune. */
  datatype Element = Day | Month | LongYear | Hour | ZeroMinute | Lit(c: char)

  /** The layout `15:04`. */
  const ClockLayout: seq<Element> := [Hour, Lit(':'), ZeroMinute]

  /** The layout `2 Jan 2006 15:04`, the constant `DateFormat`. */
  const DateLayout: seq<Element> :=
    [Day, Lit(' '), Month, Lit(' '), LongYear, Lit(' '), Hour, Lit(':'), ZeroMinute]

  const DateFormat := "2 Jan 2006 15:04"

  /** The three-letter name of a month, as Go's table of short month names
      lists it. */
  function MonthName(month: int): (name: string)
    requires 1 <= month <= 12
    ensures |name| == 3 && 'A' <= name[0] <= 'Z'
  {
    match month
    case 1 => "Jan" case 2 => "Feb" case 3 => "Mar" case 4 => "Apr"
    case 5 => "May" case 6 => "Jun" case 7 => "Jul" case 8 => "Aug"
    case 9 => "Sep" case 10 => "Oct" case 11 => "Nov" case _ => "Dec"
  }

  /** ASCII case folding, as Go's month-name `match` applies it. */
  function FoldAscii(c: char): char {
    if 'A' <= c <= 'Z' then (c as int + 32) as char else c
  }

  /** Go's `match` of three runes against a three-letter name. */
  predicate SameFold(a: string, b: string)
    requires |a| == 3 && |b| == 3
  {
    FoldAscii(a[0]) == FoldAscii(b[0]) && FoldAscii(a[1]) == FoldAscii(b[1])
    && FoldAscii(a[2]) == FoldAscii(b[2])
  }

  /** Go's `lookup(shortMonthNames, s)` from the name of month `i + 1` on:
      the first month whose name the next three runes match, ignoring
      ASCII case. */
  function FindMonth(s: string, i: nat): (r: Option<Scanned>)
    requires i <= 12
    ensures r.Some? ==> i < r.value.value <= 12 && |s| >= 3 && r.value.rest == s[3..]
    ensures r.Some? ==> SameFold(s[..3], MonthName(r.value.value))
    ensures (exists m :: i < m <= 12 && |s| >= 3 && SameFold(s[..3], MonthName(m))) ==> r.Some?
    decreases 12 - i
  {
    if i == 12 then None
    else if |s| >= 3 && SameFold(s[..3], MonthName(i + 1)) then Some(Scanned(i + 1, s[3..]))
    else FindMonth(s, i + 1)
  }

  /** The leading run of spaces removed. */
  function DropSpaces(s: string): (r: string)
    ensures |r| <= |s| && r == s[|s| - |r|..]
    ensures r == [] || r[0] != ' '
    ensures forall i :: 0 <= i < |s| - |r| ==> s[i] == ' '
  {
    if s != [] && s[0] == ' ' then DropSpaces(s[1..]) else s
  }

  /** Go's `skip` for a space of the layout: the value must be empty or
      start with a space, and its whole run of spaces is consumed. */
  function SkipSpace(s: string): (r: Option<string>)
    ensures r.None? <==> s != [] && s[0] != ' '
    ensures r.Some? ==> |r.value| <= |s| && r.value == s[|s| - |r.value|..]
    ensures r.Some? ==> r.value == [] || r.value[0] != ' '
    ensures r.Some? ==> forall i :: 0 <= i < |s| - |r.value| ==> s[i] == ' '
  {
    if s == [] then Some([])
    else if s[0] != ' ' then None
    else Some(DropSpaces(s))
  }

  /** The `2006` element: exactly four digits. */
  function Year4(s: string): (r: Option<Scanned>)
    ensures r.Some? <==> |s| >= 4 && IsDigit(s[0]) && IsDigit(s[1]) && IsDigit(s[2]) && IsDigit(s[3])
    ensures r.Some? ==> r.value.value <= 9999 && |s| >= 4 && r.value.rest == s[4..]
  {
    if |s| < 4 || !IsDigit(s[0]) || !IsDigit(s[1]) || !IsDigit(s[2]) || !IsDigit(s[3]) then None
    else Some(Scanned(1000 * Digit(s[0]) + 100 * Digit(s[1]) + 10 * Digit(s[2]) + Digit(s[3]), s[4..]))
  }

  /** The unread rest of the value and the fields so far. */
  datatype Progress = Progress(rest: string, fields: DateTime)

  /** One element of the layout read from the front of `value`; an hour of
      24 or more and a minute of 60 or more are out of range. */
  function ParseElement(e: Element, value: string, t: DateTime): (r: Option<Progress>)
    ensures InRange(t) && r.Some? ==> InRange(r.value.fields)
  {
    match e
    case Lit(c) =>
      if c == ' ' then
        var rest :- SkipSpace(value);
        Some(Progress(rest, t))
      else if value != [] && value[0] == c then Some(Progress(value[1..], t))
      else None
    case Day =>
      var n :- GetNum(value, false);
      Some(Progress(n.rest, t.(day := n.value)))
    case Month =>
      var n :- FindMonth(value, 0);
      Some(Progress(n.rest, t.(month := n.value)))
    case LongYear =>
      var n :- Year4(value);
      Some(Progress(n.rest, t.(year := n.value)))
    case Hour =>
      var n :- GetNum(value, false);
      if n.value >= 24 then None else Some(Progress(n.rest, t.(hour := n.value)))
    case ZeroMinute =>
      var n :- GetNum(value, true);
      if n.value >= 60 then None else Some(Progress(n.rest, t.(minute := n.value)))
  }

  /** The layout read element by element; text left over is an error. */
  function ParseLayout(layout: seq<Element>, value: string, t: DateTime): (r: Option<DateTime>)
    ensures InRange(t) && r.Some? ==> InRange(r.value)
    decreases |layout|
  {
    if layout == [] then (if value == [] then Some(t) else None)
    else
      var p :- ParseElement(layout[0], value, t);
      ParseLayout(layout[1..], p.rest, p.fields)
  }

  /** `time.Parse(layout, value)`: the day is checked against its month and
      year once the whole value has been read. */
  function Parse(layout: seq<Element>, value: string): (r: Option<DateTime>)
    ensures r.Some? ==> Valid(r.value)
  {
    var t :- ParseLayout(layout, value, Unset);
    if 1 <= t.day <= DaysIn(t.month, t.year) then Some(t) else None
  }

  /** `%02d` of a number below 100. */
  function TwoDigits(n: nat): string
    requires n < 100
  {
    [DigitChar(n / 10), DigitChar(n % 10)]
  }

  /** `%d` of a day of the month. */
  function DayText(day: nat): string
    requires 1 <= day < 100
  {
    if day < 10 then [DigitChar(day)] else TwoDigits(day)
  }

  /** A year as four digits, zero-padded. */
  function FourDigits(n: nat): string
    requires n < 10000
  {
    TwoDigits(n / 100) + TwoDigits(n % 100)
  }

  /** One element of the layout, rendered as `Time.Format` does. */
  function Render(e: Element, t: DateTime): (r: string)
    requires Valid(t)
    ensures e.Lit? ==> r == [e.c]
    ensures e == Month ==> |r| == 3 && ' ' !in r
    ensures e == Day ==> 1 <= |r| <= 2 && forall i :: 0 <= i < |r| ==> IsDigit(r[i])
    ensures e == LongYear ==> |r| == 4 && forall i :: 0 <= i < |r| ==> IsDigit(r[i])
    ensures e == Hour || e == ZeroMinute ==> |r| == 2 && IsDigit(r[0]) && IsDigit(r[1])
  {
    match e
    case Day => DayText(t.day)
    case Month => MonthName(t.month)
    case LongYear => FourDigits(t.year)
    case Hour => TwoDigits(t.hour)
    case ZeroMinute => TwoDigits(t.minute)
    case Lit(c) => [c]
  }

  /** `t.Format(layout)`. */
  function Format(layout: seq<Element>, t: DateTime): (r: string)
    requires Valid(t)
    ensures |r| >= |layout|
    decreases |layout|
  {
    if layout == [] then [] else Render(layout[0], t) + Format(layout[1..], t)
  }

  lemma FormatFrom(layout: seq<Element>, k: nat, t: DateTime)
    requires Valid(t) && k < |layout|
    ensures Format(layout[k..], t) == Render(layout[k], t) + Format(layout[k + 1..], t)
  {
    assert layout[k..][1..] == layout[k + 1..];
  }

  /** What `Format` writes for the date layout: day, month name, year,
      hour and minute, with the layout's separators between them. */
  lemma DateLayoutText(t: DateTime)
    requires Valid(t)
    ensures Format(DateLayout, t) == DayText(t.day) + (" " + (MonthName(t.month) + (" " + (FourDigits(t.year)
      + (" " + (TwoDigits(t.hour) + (":" + TwoDigits(t.minute))))))))
  {
    DateShapedText(DateLayout, t);
  }

  lemma DateShapedText(layout: seq<Element>, t: DateTime)
    requires Valid(t) && |layout| == 9 && layout[0] == Day && layout[1] == layout[3] == layout[5] == Lit(' ')
      && layout[2] == Month && layout[4] == LongYear && layout[6] == Hour && layout[7] == Lit(':')
      && layout[8] == ZeroMinute
    ensures Format(layout, t) == DayText(t.day) + (" " + (MonthName(t.month) + (" " + (FourDigits(t.year)
      + (" " + (TwoDigits(t.hour) + (":" + TwoDigits(t.minute))))))))
  {
    YearShapedText(layout, t);
    FormatFrom(layout, 3, t);
    FormatFrom(layout, 2, t);
    FormatFrom(layout, 1, t);
    FormatFrom(layout, 0, t);
    assert layout[0..] == layout;
  }

  lemma YearShapedText(layout: seq<Element>, t: DateTime)
    requires Valid(t) && |layout| == 9 && layout[5] == Lit(' ')
      && layout[4] == LongYear && layout[6] == Hour && layout[7] == Lit(':') && layout[8] == ZeroMinute
    ensures Format(layout[4..], t) == FourDigits(t.year) + (" " + (TwoDigits(t.hour) + (":" + TwoDigits(t.minute))))
  {
    assert Format(layout[9..], t) == [];
    FormatFrom(layout, 8, t);
    FormatFrom(layout, 7, t);
    FormatFrom(layout, 6, t);
    FormatFrom(layout, 5, t);
    FormatFrom(layout, 4, t);
  }

  /** The layout's own reference time, rendered in the layout, is the
      layout string. */
  lemma DateFormatIsReferenceTime()
    ensures Valid(DateTime(2006, 1, 2, 15, 4))
    ensures Format(DateLayout, DateTime(2006, 1, 2, 15, 4)) == DateFormat
  {
    var t := DateTime(2006, 1, 2, 15, 4);
    DateLayoutText(t);
    ReferenceFields(t);
  }

  /** The reference time rendered in the clock layout is `15:04`, the
      layout string the window checks parse with. */
  lemma ClockFormatIsReferenceTime()
    ensures Valid(DateTime(2006, 1, 2, 15, 4))
    ensures Format(ClockLayout, DateTime(2006, 1, 2, 15, 4)) == "15:04"
  {
    var t := DateTime(2006, 1, 2, 15, 4);
    FormatFrom(ClockLayout, 0, t);
    FormatFrom(ClockLayout, 1, t);
    FormatFrom(ClockLayout, 2, t);
    assert TwoDigits(15) == "15" && TwoDigits(4) == "04";
  }

  /** The fields of the reference time, spelled out as the date layout
      spells them, make the layout string. */
  lemma ReferenceFields(t: DateTime)
    requires t == DateTime(2006, 1, 2, 15, 4)
    ensures Valid(t)
    ensures DayText(t.day) + (" " + (MonthName(t.month) + (" " + (FourDigits(t.year)
      + (" " + (TwoDigits(t.hour) + (":" + TwoDigits(t.minute)))))))) == DateFormat
  {
    assert DayText(2) == "2" && MonthName(1) == "Jan" && FourDigits(2006) == "2006";
    assert TwoDigits(15) == "15" && TwoDigits(4) == "04";
  }

  /** What must follow the rendering of an element for the parse of that
      element to stop where the rendering ends. */
  predicate Stops(e: Element, rest: string) {
    (e == Day ==> rest == [] || !IsDigit(rest[0]))
    && (e == Lit(' ') ==> rest == [] || rest[0] != ' ')
  }

  /** The field an element fills in, taken from `t`. */
  function Assign(e: Element, t: DateTime, acc: DateTime): DateTime {
    match e
    case Day => acc.(day := t.day)
    case Month => acc.(month := t.month)
    case LongYear => acc.(year := t.year)
    case Hour => acc.(hour := t.hour)
    case ZeroMinute => acc.(minute := t.minute)
    case Lit(_) => acc
  }

  // Round trip: what Format writes, Parse reads back.

  lemma TwoDigitsScan(n: nat)
    requires n < 100
    ensures |TwoDigits(n)| == 2 && IsDigit(TwoDigits(n)[0]) && IsDigit(TwoDigits(n)[1])
    ensures 10 * Digit(TwoDigits(n)[0]) + Digit(TwoDigits(n)[1]) == n
  {
  }

  /** Names of different months never match, whatever their case. */
  lemma NamesDiffer(i: int, j: int)
    requires 1 <= i <= 12 && 1 <= j <= 12 && i != j
    ensures !SameFold(MonthName(i), MonthName(j))
  {
    if i == 1 {} else if i == 2 {} else if i == 3 {} else if i == 4 {}
    else if i == 5 {} else if i == 6 {} else if i == 7 {} else if i == 8 {}
    else if i == 9 {} else if i == 10 {} else if i == 11 {} else {}
  }

  /** The name of a month, in any case, is found as that month: the names
      of the months before it never match it. */
  lemma {:induction false} FoundFrom(s: string, month: int, i: nat)
    requires 1 <= month <= 12 && i < month && |s| >= 3 && SameFold(s[..3], MonthName(month))
    ensures FindMonth(s, i) == Some(Scanned(month, s[3..]))
    decreases month - i
  {
    if i + 1 != month {
      NamesDiffer(i + 1, month);
      FoundFrom(s, month, i + 1);
    }
  }

  lemma DayThenParse(t: DateTime, rest: string, acc: DateTime)
    requires Valid(t) && Stops(Day, rest)
    ensures ParseElement(Day, Render(Day, t) + rest, acc) == Some(Progress(rest, acc.(day := t.day)))
  {
    var text := Render(Day, t) + rest;
    if t.day < 10 {
      assert text == [DigitChar(t.day)] + rest;
    } else {
      TwoDigitsScan(t.day);
      assert text[2..] == rest;
    }
  }

  lemma MonthThenParse(t: DateTime, rest: string, acc: DateTime)
    requires Valid(t)
    ensures ParseElement(Month, Render(Month, t) + rest, acc) == Some(Progress(rest, acc.(month := t.month)))
  {
    var text := Render(Month, t) + rest;
    assert text[..3] == MonthName(t.month) && text[3..] == rest;
    FoundFrom(text, t.month, 0);
  }

  lemma YearThenParse(t: DateTime, rest: string, acc: DateTime)
    requires Valid(t)
    ensures ParseElement(LongYear, Render(LongYear, t) + rest, acc) == Some(Progress(rest, acc.(year := t.year)))
  {
    var text := Render(LongYear, t) + rest;
    var hi, lo := t.year / 100, t.year % 100;
    TwoDigitsScan(hi);
    TwoDigitsScan(lo);
    assert text[0..2] == TwoDigits(hi) && text[2..4] == TwoDigits(lo) && text[4..] == rest;
    assert t.year == 100 * hi + lo;
  }

  lemma ClockThenParse(e: Element, t: DateTime, rest: string, acc: DateTime)
    requires Valid(t) && (e == Hour || e == ZeroMinute)
    ensures ParseElement(e, Render(e, t) + rest, acc) == Some(Progress(rest, Assign(e, t, acc)))
  {
    var text := Render(e, t) + rest;
    if e == Hour {
      TwoDigitsScan(t.hour);
    } else {
      TwoDigitsScan(t.minute);
    }
    assert text[2..] == rest;
  }

  lemma RenderThenParse(e: Element, t: DateTime, rest: string, acc: DateTime)
    requires Valid(t) && Stops(e, rest)
    ensures ParseElement(e, Render(e, t) + rest, acc) == Some(Progress(rest, Assign(e, t, acc)))
  {
    match e
    case Day => DayThenParse(t, rest, acc);
    case Month => MonthThenParse(t, rest, acc);
    case LongYear => YearThenParse(t, rest, acc);
    case Hour => ClockThenParse(e, t, rest, acc);
    case ZeroMinute => ClockThenParse(e, t, rest, acc);
    case Lit(c) =>
      var text := Render(e, t) + rest;
      assert text[1..] == rest;
      if c == ' ' {
        assert DropSpaces(text) == DropSpaces(rest) == rest;
      }
  }

  /** Every element of the layout can be read back from its rendering:
      a day is followed by a literal that is not a digit, and a space by
      something that is not a space. */
  predicate Separated(layout: seq<Element>) {
    forall i :: 0 <= i < |layout| - 1 ==>
      (layout[i] == Day ==> layout[i + 1].Lit? && !IsDigit(layout[i + 1].c))
      && (layout[i] == Lit(' ') ==> layout[i + 1] != Lit(' '))
  }

  /** `acc` with every field the layout mentions taken from `t`. */
  function Overlay(layout: seq<Element>, t: DateTime, acc: DateTime): DateTime {
    DateTime(
      if LongYear in layout then t.year else acc.year,
      if Month in layout then t.month else acc.month,
      if Day in layout then t.day else acc.day,
      if Hour in layout then t.hour else acc.hour,
      if ZeroMinute in layout then t.minute else acc.minute)
  }

  /** A rendering starts with the element's literal rune, or, for the other
      elements, with a letter or digit which is not a space. */
  lemma FormatStart(layout: seq<Element>, t: DateTime)
    requires Valid(t) && layout != []
    ensures Format(layout, t) != []
    ensures layout[0].Lit? ==> Format(layout, t)[0] == layout[0].c
    ensures !layout[0].Lit? ==> Format(layout, t)[0] != ' '
  {
    var r := Render(layout[0], t);
    assert r != [] && Format(layout, t)[0] == r[0];
  }

  /** Reading the first element, then the rest of the layout. */
  lemma ParseCons(layout: seq<Element>, value: string, acc: DateTime, p: Progress)
    requires layout != [] && ParseElement(layout[0], value, acc) == Some(p)
    ensures ParseLayout(layout, value, acc) == ParseLayout(layout[1..], p.rest, p.fields)
  {
  }

  lemma OverlayCons(layout: seq<Element>, t: DateTime, acc: DateTime)
    requires layout != []
    ensures Overlay(layout[1..], t, Assign(layout[0], t, acc)) == Overlay(layout, t, acc)
  {
    assert forall e :: e in layout <==> e == layout[0] || e in layout[1..] by {
      assert layout == [layout[0]] + layout[1..];
    }
  }

  lemma SeparatedTail(layout: seq<Element>)
    requires layout != [] && Separated(layout)
    ensures Separated(layout[1..])
  {
    var tail := layout[1..];
    forall i | 0 <= i < |tail| - 1
      ensures (tail[i] == Day ==> tail[i + 1].Lit? && !IsDigit(tail[i + 1].c))
      ensures (tail[i] == Lit(' ') ==> tail[i + 1] != Lit(' '))
    {
      assert tail[i] == layout[i + 1] && tail[i + 1] == layout[i + 2];
    }
  }

  /** The rendering of the rest of a separated layout lets its first
      element's parse stop where that element's rendering ends. */
  lemma FirstStops(layout: seq<Element>, t: DateTime)
    requires Valid(t) && layout != [] && Separated(layout)
    ensures Stops(layout[0], Format(layout[1..], t))
  {
    if |layout| > 1 {
      assert layout[1..][0] == layout[1];
      FormatStart(layout[1..], t);
    }
  }

  /** What `Format` writes in a separated layout, `Parse` reads back: the
      fields the layout mentions come from `t` and the others stay. */
  lemma {:induction false} FormatThenParseLayout(layout: seq<Element>, t: DateTime, acc: DateTime)
    requires Valid(t) && Separated(layout)
    ensures ParseLayout(layout, Format(layout, t), acc) == Some(Overlay(layout, t, acc))
    decreases |layout|
  {
    if layout != [] {
      var tail := layout[1..];
      var rest := Format(tail, t);
      var next := Assign(layout[0], t, acc);
      FirstStops(layout, t);
      RenderThenParse(layout[0], t, rest, acc);
      ParseCons(layout, Format(layout, t), acc, Progress(rest, next));
      SeparatedTail(layout);
      FormatThenParseLayout(tail, t, next);
      OverlayCons(layout, t, acc);
    }
  }
}
