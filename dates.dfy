/** The fixed date and datetime patterns of the conversion, read the way Python's
    `datetime.strptime` reads them.  Each directive accepts what its regular expression in
    CPython's `_strptime` accepts (ASCII digits only):
      %Y  exactly four digits
      %m  one or two digits, 1..12
      %d  one or two digits, 1..31, or a space and one digit 1..9
      %b  an English month abbreviation, in any letter case
      %H  one or two digits, 0..23
      %M  one or two digits, 0..59
      %S  one or two digits, 0..61
    A space in a pattern matches one or more whitespace characters, the whole text must be
    consumed, and the fields must then form a real calendar date and time of day (which is
    where a year 0000, 30 February or second 60 is refused). */
module Dates {
  import opened Wrappers
  import opened Text

  datatype Date = Date(year: int, month: int, day: int)

  datatype DateTime = DateTime(date: Date, hour: int, minute: int, second: int)

  predicate IsLeapYear(y: int) {
    y % 4 == 0 && (y % 100 != 0 || y % 400 == 0)
  }

  function DaysInMonth(y: int, m: int): (n: int)
    requires 1 <= m <= 12
    ensures 28 <= n <= 31
  {
    if m == 2 then (if IsLeapYear(y) then 29 else 28)
    else if m == 4 || m == 6 || m == 9 || m == 11 then 30
    else 31
  }

  /** What `datetime.date(year, month, day)` accepts. */
  predicate ValidDate(d: Date) {
    1 <= d.year <= 9999 && 1 <= d.month <= 12 && 1 <= d.day <= DaysInMonth(d.year, d.month)
  }

  /** What `datetime.datetime(...)` accepts (no leap seconds). */
  predicate ValidDateTime(t: DateTime) {
    ValidDate(t.date) && 0 <= t.hour <= 23 && 0 <= t.minute <= 59 && 0 <= t.second <= 59
  }

  // ---------------------------------------------------------------------------------------
  // Directives

  /** A directive's value and the text after it. */
  datatype Scan = Scan(value: int, rest: string)

  /** %Y */
  function ScanYear(s: string): (r: Option<Scan>)
    ensures r.Some? ==> |s| >= 4 && 0 <= r.value.value <= 9999 && r.value.rest == s[4..]
  {
    if |s| >= 4 && AllDigits(s[..4]) then
      ValueBound(s[..4]);
      assert Pow10(4) == 10000;
      Some(Scan(Value(s[..4]), s[4..]))
    else None
  }

  /** %m, %H, %M, %S and the numeric form of %d: one or two digits whose value lies in lo..hi. */
  function ScanNumber(s: string, lo: int, hi: int): (r: Option<Scan>)
    ensures r.Some? ==> lo <= r.value.value <= hi
    ensures r.Some? ==> exists k :: 1 <= k <= 2 && k <= |s| && r.value.rest == s[k..]
  {
    var k := DigitPrefixLen(s);
    if 1 <= k <= 2 && lo <= Value(s[..k]) <= hi then Some(Scan(Value(s[..k]), s[k..])) else None
  }

  /** %d */
  function ScanDay(s: string): (r: Option<Scan>)
    ensures r.Some? ==> 1 <= r.value.value <= 31
  {
    if |s| >= 2 && s[0] == ' ' && '1' <= s[1] <= '9' then Some(Scan(DigitValue(s[1]), s[2..]))
    else ScanNumber(s, 1, 31)
  }

  const MonthAbbreviations: seq<string> :=
    ["jan", "feb", "mar", "apr", "may", "jun", "jul", "aug", "sep", "oct", "nov", "dec"]

  /** The month number of a lower-case abbreviation. */
  function MonthNumber(name: string): (r: Option<int>)
    ensures r.Some? ==> 1 <= r.value <= 12 && MonthAbbreviations[r.value - 1] == name
    ensures r.None? ==> name !in MonthAbbreviations
  {
    if name == "jan" then Some(1)
    else if name == "feb" then Some(2)
    else if name == "mar" then Some(3)
    else if name == "apr" then Some(4)
    else if name == "may" then Some(5)
    else if name == "jun" then Some(6)
    else if name == "jul" then Some(7)
    else if name == "aug" then Some(8)
    else if name == "sep" then Some(9)
    else if name == "oct" then Some(10)
    else if name == "nov" then Some(11)
    else if name == "dec" then Some(12)
    else None
  }

  /** %b */
  function ScanMonthName(s: string): (r: Option<Scan>)
    ensures r.Some? ==> 1 <= r.value.value <= 12 && |s| >= 3 && r.value.rest == s[3..]
  {
    if |s| >= 3 then
      var m :- MonthNumber(Lower(s[..3]));
      Some(Scan(m, s[3..]))
    else None
  }

  /** A literal character of the pattern. */
  function Expect(s: string, c: char): (r: Option<string>)
    ensures r.Some? <==> s != [] && s[0] == c
    ensures r.Some? ==> r.value == s[1..]
  {
    if s != [] && s[0] == c then Some(s[1..]) else None
  }

  /** A space of the pattern: one or more whitespace characters. */
  function SkipSpaces(s: string): (r: Option<string>)
    ensures r.Some? ==> |r.value| < |s|
  {
    var k := SpacePrefixLen(s);
    if k >= 1 then Some(s[k..]) else None
  }

  // ---------------------------------------------------------------------------------------
  // Patterns

  /** The date patterns, in the order the conversion tries them. */
  datatype DateFormat =
    | YearMonthDay       // %Y-%m-%d
    | MonthDayYear       // %m/%d/%Y
    | DayMonthNameYear   // %d-%b-%Y

  /** The datetime patterns, in the order the conversion tries them. */
  datatype DateTimeFormat =
    | YearMonthDayClock  // %Y-%m-%d %H:%M:%S
    | MonthDayYearClock  // %m/%d/%Y %H:%M:%S

  /** The date part that a datetime pattern starts with. */
  function DatePartOf(f: DateTimeFormat): DateFormat {
    match f
    case YearMonthDayClock => YearMonthDay
    case MonthDayYearClock => MonthDayYear
  }

  /** The fields a date pattern read, not yet checked against the calendar, and the rest. */
  datatype DateScan = DateScan(date: Date, rest: string)

  function ScanDate(f: DateFormat, s: string): (r: Option<DateScan>)
    ensures r.Some? ==> 1 <= r.value.date.month <= 12 && 1 <= r.value.date.day <= 31
  {
    match f
    case YearMonthDay =>
      var y :- ScanYear(s);
      var s1 :- Expect(y.rest, '-');
      var m :- ScanNumber(s1, 1, 12);
      var s2 :- Expect(m.rest, '-');
      var d :- ScanDay(s2);
      Some(DateScan(Date(y.value, m.value, d.value), d.rest))
    case MonthDayYear =>
      var m :- ScanNumber(s, 1, 12);
      var s1 :- Expect(m.rest, '/');
      var d :- ScanDay(s1);
      var s2 :- Expect(d.rest, '/');
      var y :- ScanYear(s2);
      Some(DateScan(Date(y.value, m.value, d.value), y.rest))
    case DayMonthNameYear =>
      var d :- ScanDay(s);
      var s1 :- Expect(d.rest, '-');
      var m :- ScanMonthName(s1);
      var s2 :- Expect(m.rest, '-');
      var y :- ScanYear(s2);
      Some(DateScan(Date(y.value, m.value, d.value), y.rest))
  }

  /** `datetime.strptime(s, f).date()`, or None where it raises ValueError. */
  function ParseDate(f: DateFormat, s: string): (r: Option<Date>)
    ensures r.Some? ==> ValidDate(r.value)
  {
    var p :- ScanDate(f, s);
    if p.rest == [] && ValidDate(p.date) then Some(p.date) else None
  }

  /** The time of day a clock reads and the rest. */
  datatype ClockScan = ClockScan(hour: int, minute: int, second: int, rest: string)

  /** %H:%M:%S */
  function ScanClock(s: string): (r: Option<ClockScan>)
    ensures r.Some? ==> 0 <= r.value.hour <= 23 && 0 <= r.value.minute <= 59
  {
    var h :- ScanNumber(s, 0, 23);
    var s1 :- Expect(h.rest, ':');
    var m :- ScanNumber(s1, 0, 59);
    var s2 :- Expect(m.rest, ':');
    var sec :- ScanNumber(s2, 0, 61);
    Some(ClockScan(h.value, m.value, sec.value, sec.rest))
  }

  /** `datetime.strptime(s, f)`, or None where it raises ValueError. */
  function ParseDateTime(f: DateTimeFormat, s: string): (r: Option<DateTime>)
    ensures r.Some? ==> ValidDateTime(r.value)
  {
    var p :- ScanDate(DatePartOf(f), s);
    var s1 :- SkipSpaces(p.rest);
    var c :- ScanClock(s1);
    var t := DateTime(p.date, c.hour, c.minute, c.second);
    if c.rest == [] && ValidDateTime(t) then Some(t) else None
  }

  // ---------------------------------------------------------------------------------------
  // Rendering, the inverse of parsing: zero-padded fields as `strftime` writes them.

  const MonthNames: seq<string> :=
    ["Jan", "Feb", "Mar", "Apr", "May", "Jun", "Jul", "Aug", "Sep", "Oct", "Nov", "Dec"]

  function FormatDate(f: DateFormat, d: Date): (s: string)
    requires ValidDate(d)
  {
    match f
    case YearMonthDay => FourDigits(d.year) + "-" + TwoDigits(d.month) + "-" + TwoDigits(d.day)
    case MonthDayYear => TwoDigits(d.month) + "/" + TwoDigits(d.day) + "/" + FourDigits(d.year)
    case DayMonthNameYear => TwoDigits(d.day) + "-" + MonthNames[d.month - 1] + "-" + FourDigits(d.year)
  }

  function FormatClock(t: DateTime): (s: string)
    requires ValidDateTime(t)
  {
    TwoDigits(t.hour) + ":" + TwoDigits(t.minute) + ":" + TwoDigits(t.second)
  }

  function FormatDateTime(f: DateTimeFormat, t: DateTime): (s: string)
    requires ValidDateTime(t)
  {
    FormatDate(DatePartOf(f), t.date) + " " + FormatClock(t)
  }

  // ---------------------------------------------------------------------------------------
  // Each pattern reads back what it renders.

  /** Text that cannot continue a run of digits. */
  predicate NoDigitFirst(t: string) {
    t == [] || !IsDigit(t[0])
  }

  lemma ScanYearOf(y: nat, t: string)
    requires y < 10000
    ensures ScanYear(FourDigits(y) + t) == Some(Scan(y, t))
  {
    var s := FourDigits(y) + t;
    assert s[..4] == FourDigits(y) && s[4..] == t;
  }

  lemma ScanNumberOf(n: nat, lo: int, hi: int, t: string)
    requires n < 100 && lo <= n <= hi && NoDigitFirst(t)
    ensures ScanNumber(TwoDigits(n) + t, lo, hi) == Some(Scan(n, t))
  {
    DigitPrefixOfConcat(TwoDigits(n), t);
  }

  lemma ScanDayOf(n: nat, t: string)
    requires 1 <= n <= 31 && NoDigitFirst(t)
    ensures ScanDay(TwoDigits(n) + t) == Some(Scan(n, t))
  {
    assert (TwoDigits(n) + t)[0] == TwoDigits(n)[0];
    ScanNumberOf(n, 1, 31, t);
  }

  lemma MonthNamesLowered(i: nat)
    requires i < 12
    ensures Lower(MonthNames[i]) == MonthAbbreviations[i]
  {
    var name, abbreviation := MonthNames[i], MonthAbbreviations[i];
    assert |Lower(name)| == 3 == |abbreviation|;
    assert Lower(name)[0] == abbreviation[0];
  }

  lemma ScanMonthNameOf(m: int, t: string)
    requires 1 <= m <= 12
    ensures ScanMonthName(MonthNames[m - 1] + t) == Some(Scan(m, t))
  {
    var s := MonthNames[m - 1] + t;
    assert s[..3] == MonthNames[m - 1] && s[3..] == t;
    MonthNamesLowered(m - 1);
    MonthNumberOf(m);
  }

  lemma MonthNumberOf(m: int)
    requires 1 <= m <= 12
    ensures MonthNumber(MonthAbbreviations[m - 1]) == Some(m)
  {
    if m <= 6 {
      if m == 1 { assert MonthAbbreviations[0] == "jan"; }
      else if m == 2 { assert MonthAbbreviations[1] == "feb"; }
      else if m == 3 { assert MonthAbbreviations[2] == "mar"; }
      else if m == 4 { assert MonthAbbreviations[3] == "apr"; }
      else if m == 5 { assert MonthAbbreviations[4] == "may"; }
      else { assert MonthAbbreviations[5] == "jun"; }
    } else {
      if m == 7 { assert MonthAbbreviations[6] == "jul"; }
      else if m == 8 { assert MonthAbbreviations[7] == "aug"; }
      else if m == 9 { assert MonthAbbreviations[8] == "sep"; }
      else if m == 10 { assert MonthAbbreviations[9] == "oct"; }
      else if m == 11 { assert MonthAbbreviations[10] == "nov"; }
      else { assert MonthAbbreviations[11] == "dec"; }
    }
  }

  /** The directives of `%Y-%m-%d`, read one after another. */
  lemma ScanYearMonthDaySteps(s: string, y: Scan, s1: string, m: Scan, s2: string, d: Scan)
    requires ScanYear(s) == Some(y) && Expect(y.rest, '-') == Some(s1)
    requires ScanNumber(s1, 1, 12) == Some(m) && Expect(m.rest, '-') == Some(s2)
    requires ScanDay(s2) == Some(d)
    ensures ScanDate(YearMonthDay, s) == Some(DateScan(Date(y.value, m.value, d.value), d.rest))
  {
  }

  /** The directives of `%m/%d/%Y`, read one after another. */
  lemma ScanMonthDayYearSteps(s: string, m: Scan, s1: string, d: Scan, s2: string, y: Scan)
    requires ScanNumber(s, 1, 12) == Some(m) && Expect(m.rest, '/') == Some(s1)
    requires ScanDay(s1) == Some(d) && Expect(d.rest, '/') == Some(s2)
    requires ScanYear(s2) == Some(y)
    ensures ScanDate(MonthDayYear, s) == Some(DateScan(Date(y.value, m.value, d.value), y.rest))
  {
  }

  /** The directives of `%d-%b-%Y`, read one after another. */
  lemma ScanDayMonthNameYearSteps(s: string, d: Scan, s1: string, m: Scan, s2: string, y: Scan)
    requires ScanDay(s) == Some(d) && Expect(d.rest, '-') == Some(s1)
    requires ScanMonthName(s1) == Some(m) && Expect(m.rest, '-') == Some(s2)
    requires ScanYear(s2) == Some(y)
    ensures ScanDate(DayMonthNameYear, s) == Some(DateScan(Date(y.value, m.value, d.value), y.rest))
  {
  }

  /** A rendered date followed by more text, regrouped from the right. */
  lemma FormatDateText(f: DateFormat, d: Date, t: string)
    requires ValidDate(d)
    ensures f == YearMonthDay ==> (FormatDate(f, d) + t ==
      FourDigits(d.year) + ("-" + (TwoDigits(d.month) + ("-" + (TwoDigits(d.day) + t)))))
    ensures f == MonthDayYear ==> (FormatDate(f, d) + t ==
      TwoDigits(d.month) + ("/" + (TwoDigits(d.day) + ("/" + (FourDigits(d.year) + t)))))
    ensures f == DayMonthNameYear ==> (FormatDate(f, d) + t ==
      TwoDigits(d.day) + ("-" + (MonthNames[d.month - 1] + ("-" + (FourDigits(d.year) + t)))))
  {
    match f
    case YearMonthDay => Regroup(FourDigits(d.year), "-", TwoDigits(d.month), "-", TwoDigits(d.day), t);
    case MonthDayYear => Regroup(TwoDigits(d.month), "/", TwoDigits(d.day), "/", FourDigits(d.year), t);
    case DayMonthNameYear =>
      Regroup(TwoDigits(d.day), "-", MonthNames[d.month - 1], "-", FourDigits(d.year), t);
  }

  lemma ScanYearMonthDayOf(d: Date, t: string)
    requires ValidDate(d) && NoDigitFirst(t)
    ensures ScanDate(YearMonthDay, FormatDate(YearMonthDay, d) + t) == Some(DateScan(d, t))
  {
    var y, m, dd := FourDigits(d.year), TwoDigits(d.month), TwoDigits(d.day);
    var rest2 := "-" + (dd + t);
    var rest1 := "-" + (m + rest2);
    FormatDateText(YearMonthDay, d, t);
    ScanYearOf(d.year, rest1);
    ScanNumberOf(d.month, 1, 12, rest2);
    ScanDayOf(d.day, t);
    ScanYearMonthDaySteps(y + rest1, Scan(d.year, rest1), m + rest2, Scan(d.month, rest2), dd + t, Scan(d.day, t));
  }

  lemma ScanMonthDayYearOf(d: Date, t: string)
    requires ValidDate(d) && NoDigitFirst(t)
    ensures ScanDate(MonthDayYear, FormatDate(MonthDayYear, d) + t) == Some(DateScan(d, t))
  {
    var y, m, dd := FourDigits(d.year), TwoDigits(d.month), TwoDigits(d.day);
    var rest2 := "/" + (y + t);
    var rest1 := "/" + (dd + rest2);
    FormatDateText(MonthDayYear, d, t);
    ScanNumberOf(d.month, 1, 12, rest1);
    ScanDayOf(d.day, rest2);
    ScanYearOf(d.year, t);
    ScanMonthDayYearSteps(m + rest1, Scan(d.month, rest1), dd + rest2, Scan(d.day, rest2), y + t, Scan(d.year, t));
  }

  lemma ScanDayMonthNameYearOf(d: Date, t: string)
    requires ValidDate(d) && NoDigitFirst(t)
    ensures ScanDate(DayMonthNameYear, FormatDate(DayMonthNameYear, d) + t) == Some(DateScan(d, t))
  {
    var y, dd, name := FourDigits(d.year), TwoDigits(d.day), MonthNames[d.month - 1];
    var rest2 := "-" + (y + t);
    var rest1 := "-" + (name + rest2);
    FormatDateText(DayMonthNameYear, d, t);
    ScanDayOf(d.day, rest1);
    ScanMonthNameOf(d.month, rest2);
    ScanYearOf(d.year, t);
    ScanDayMonthNameYearSteps(dd + rest1, Scan(d.day, rest1), name + rest2, Scan(d.month, rest2), y + t, Scan(d.year, t));
  }

  lemma ScanDateOf(f: DateFormat, d: Date, t: string)
    requires ValidDate(d) && NoDigitFirst(t)
    ensures ScanDate(f, FormatDate(f, d) + t) == Some(DateScan(d, t))
  {
    match f
    case YearMonthDay => ScanYearMonthDayOf(d, t);
    case MonthDayYear => ScanMonthDayYearOf(d, t);
    case DayMonthNameYear => ScanDayMonthNameYearOf(d, t);
  }

  /** Every date pattern reads back the date it renders. */
  lemma ParseFormatDate(f: DateFormat, d: Date)
    requires ValidDate(d)
    ensures ParseDate(f, FormatDate(f, d)) == Some(d)
  {
    assert FormatDate(f, d) + [] == FormatDate(f, d);
    ScanDateOf(f, d, []);
  }

  /** The directives of `%H:%M:%S`, read one after another. */
  lemma ScanClockSteps(s: string, h: Scan, s1: string, m: Scan, s2: string, sec: Scan)
    requires ScanNumber(s, 0, 23) == Some(h) && Expect(h.rest, ':') == Some(s1)
    requires ScanNumber(s1, 0, 59) == Some(m) && Expect(m.rest, ':') == Some(s2)
    requires ScanNumber(s2, 0, 61) == Some(sec)
    ensures ScanClock(s) == Some(ClockScan(h.value, m.value, sec.value, sec.rest))
  {
  }

  lemma ScanClockOf(t: DateTime)
    requires ValidDateTime(t)
    ensures ScanClock(FormatClock(t)) == Some(ClockScan(t.hour, t.minute, t.second, []))
  {
    var h, m, sec := TwoDigits(t.hour), TwoDigits(t.minute), TwoDigits(t.second);
    var rest2 := ":" + (sec + []);
    var rest1 := ":" + (m + rest2);
    assert FormatClock(t) == h + rest1 by {
      Regroup(h, ":", m, ":", sec, []);
      assert FormatClock(t) + [] == FormatClock(t);
    }
    ScanNumberOf(t.hour, 0, 23, rest1);
    ScanNumberOf(t.minute, 0, 59, rest2);
    ScanNumberOf(t.second, 0, 61, []);
    ScanClockSteps(h + rest1, Scan(t.hour, rest1), m + rest2, Scan(t.minute, rest2), sec + [], Scan(t.second, []));
  }

  /** A datetime pattern read step by step: the date part, the spaces, the clock. */
  lemma ParseDateTimeSteps(f: DateTimeFormat, s: string, p: DateScan, s1: string, c: ClockScan)
    requires ScanDate(DatePartOf(f), s) == Some(p) && SkipSpaces(p.rest) == Some(s1)
    requires ScanClock(s1) == Some(c) && c.rest == []
    requires ValidDateTime(DateTime(p.date, c.hour, c.minute, c.second))
    ensures ParseDateTime(f, s) == Some(DateTime(p.date, c.hour, c.minute, c.second))
  {
  }

  /** After the date, the rendered text is one space and then the clock, which reads back. */
  lemma ClockAfterSpace(t: DateTime)
    requires ValidDateTime(t)
    ensures SkipSpaces(" " + FormatClock(t)) == Some(FormatClock(t))
    ensures ScanClock(FormatClock(t)) == Some(ClockScan(t.hour, t.minute, t.second, []))
  {
    var clock := FormatClock(t);
    var rest := " " + clock;
    assert rest[1..] == clock;
    assert SpacePrefixLen(rest) == 1 by {
      assert rest[1] == clock[0];
    }
    ScanClockOf(t);
  }

  /** Once the date part of a datetime pattern has read its date, the rest of the rendered text
      reads as the clock. */
  lemma ParseDateTimeAfterDate(f: DateTimeFormat, dateText: string, t: DateTime)
    requires ValidDateTime(t)
    requires ScanDate(DatePartOf(f), dateText + (" " + FormatClock(t))) == Some(DateScan(t.date, " " + FormatClock(t)))
    ensures ParseDateTime(f, dateText + (" " + FormatClock(t))) == Some(t)
  {
    ClockAfterSpace(t);
    ParseDateTimeSteps(f, dateText + (" " + FormatClock(t)), DateScan(t.date, " " + FormatClock(t)),
      FormatClock(t), ClockScan(t.hour, t.minute, t.second, []));
  }

  /** Every datetime pattern reads back the datetime it renders. */
  lemma ParseFormatDateTime(f: DateTimeFormat, t: DateTime)
    requires ValidDateTime(t)
    ensures ParseDateTime(f, FormatDateTime(f, t)) == Some(t)
  {
    var rest := " " + FormatClock(t);
    match f
    case YearMonthDayClock =>
      var dateText := FormatDate(YearMonthDay, t.date);
      assert FormatDateTime(f, t) == dateText + rest;
      ScanDateOf(YearMonthDay, t.date, rest);
      ParseDateTimeAfterDate(f, dateText, t);
    case MonthDayYearClock =>
      var dateText := FormatDate(MonthDayYear, t.date);
      assert FormatDateTime(f, t) == dateText + rest;
      ScanDateOf(MonthDayYear, t.date, rest);
      ParseDateTimeAfterDate(f, dateText, t);
  }

  // ---------------------------------------------------------------------------------------
  // Text one pattern renders is refused by the patterns tried before it.

  lemma MonthDayYearIsNotYearMonthDay(d: Date)
    requires ValidDate(d)
    ensures ParseDate(YearMonthDay, FormatDate(MonthDayYear, d)).None?
  {
    var s := FormatDate(MonthDayYear, d);
    assert s[..4][2] == '/';
  }

  lemma DayMonthNameYearIsNotYearMonthDay(d: Date)
    requires ValidDate(d)
    ensures ParseDate(YearMonthDay, FormatDate(DayMonthNameYear, d)).None?
  {
    var s := FormatDate(DayMonthNameYear, d);
    assert s[..4][2] == '-';
  }

  lemma DayMonthNameYearIsNotMonthDayYear(d: Date)
    requires ValidDate(d)
    ensures ParseDate(MonthDayYear, FormatDate(DayMonthNameYear, d)).None?
  {
    var rest := "-" + (MonthNames[d.month - 1] + "-" + FourDigits(d.year));
    assert FormatDate(DayMonthNameYear, d) == TwoDigits(d.day) + rest;
    DigitPrefixOfConcat(TwoDigits(d.day), rest);
  }

  lemma MonthDayYearClockIsNotYearMonthDayClock(t: DateTime)
    requires ValidDateTime(t)
    ensures ParseDateTime(YearMonthDayClock, FormatDateTime(MonthDayYearClock, t)).None?
  {
    var s := FormatDateTime(MonthDayYearClock, t);
    assert s[..4][2] == '/';
  }
}
