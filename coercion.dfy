/** Per-cell type coercion: the dispatch on the (upper-cased) type code that turns one raw CSV
    cell into one typed value, and the loop that does it for a whole row. */
module Coercion {
  import opened Wrappers
  import opened Text
  import opened Numbers
  import opened Dates

  /** A cell of a destination record. `Null` is Python's None: a failed parse, not an error. */
  datatype TypedValue =
    | Chars(text: string)
    | Integer(n: int)
    | Float(d: Decimal)
    | Logical(b: bool)
    | DateValue(date: Date)
    | DateTimeValue(dateTime: DateTime)
    | Null

  type Record = seq<TypedValue>

  /** The words a logical cell may spell, in lower case, for true. */
  const TruthyWords: seq<string> := ["true", "t", "yes", "y", "1"]

  predicate IsTruthy(value: string) {
    Lower(value) in TruthyWords
  }

  // ---------------------------------------------------------------------------------------
  // First success among ordered attempts (the for/else loops over the format lists).

  /** The first successful attempt, or None when every attempt failed. */
  function FirstSome<T>(attempts: seq<Option<T>>): Option<T> {
    if attempts == [] then None
    else if attempts[0].Some? then attempts[0]
    else FirstSome(attempts[1..])
  }

  /** The first success is the result of an attempt all of whose predecessors failed; there is
      none exactly when every attempt failed. */
  lemma {:induction false} FirstSomeIsEarliest<T>(attempts: seq<Option<T>>)
    ensures FirstSome(attempts).None? <==> forall k :: 0 <= k < |attempts| ==> attempts[k].None?
    ensures FirstSome(attempts).Some? ==>
      exists k :: 0 <= k < |attempts| && attempts[k] == FirstSome(attempts) &&
        forall j :: 0 <= j < k ==> attempts[j].None?
  {
    if attempts != [] && attempts[0].None? {
      var tail := attempts[1..];
      FirstSomeIsEarliest(tail);
      assert forall k :: 1 <= k < |attempts| ==> attempts[k] == tail[k - 1];
      if FirstSome(tail).Some? {
        var k :| 0 <= k < |tail| && tail[k] == FirstSome(tail) &&
          forall j :: 0 <= j < k ==> tail[j].None?;
        assert attempts[k + 1] == FirstSome(attempts);
      }
    }
  }

  /** An attempt that succeeds after only failures decides the result. */
  lemma {:induction false} FirstSomeAt<T>(attempts: seq<Option<T>>, k: nat)
    requires k < |attempts| && attempts[k].Some?
    requires forall j :: 0 <= j < k ==> attempts[j].None?
    ensures FirstSome(attempts) == attempts[k]
  {
    if k > 0 {
      FirstSomeAt(attempts[1..], k - 1);
    }
  }

  /** Once an attempt has succeeded, later attempts are not consulted. */
  lemma {:induction false} FirstSomeIgnoresLater<T>(earlier: seq<Option<T>>, later: seq<Option<T>>)
    requires FirstSome(earlier).Some?
    ensures FirstSome(earlier + later) == FirstSome(earlier)
  {
    if earlier[0].None? {
      assert (earlier + later)[1..] == earlier[1..] + later;
      FirstSomeIgnoresLater(earlier[1..], later);
    }
  }

  /** First success among two attempts, spelled out. */
  lemma FirstSomeOfTwo<T>(attempts: seq<Option<T>>)
    requires |attempts| == 2
    ensures FirstSome(attempts) == if attempts[0].Some? then attempts[0] else attempts[1]
  {
    var rest := attempts[1..];
    assert rest[0] == attempts[1] && rest[1..] == [];
    assert FirstSome(rest) == if rest[0].Some? then rest[0] else FirstSome(rest[1..]);
  }

  /** First success among three attempts, spelled out. */
  lemma FirstSomeOfThree<T>(attempts: seq<Option<T>>)
    requires |attempts| == 3
    ensures FirstSome(attempts) ==
      if attempts[0].Some? then attempts[0] else if attempts[1].Some? then attempts[1] else attempts[2]
  {
    FirstSomeOfTwo(attempts[1..]);
  }

  /** The date patterns of a `D` cell, in the order they are tried. */
  const DateFormats: seq<DateFormat> := [YearMonthDay, MonthDayYear, DayMonthNameYear]

  /** The datetime patterns of a `T` cell, in the order they are tried. */
  const DateTimeFormats: seq<DateTimeFormat> := [YearMonthDayClock, MonthDayYearClock]

  /** The outcome of each date pattern on one cell, in the order they are tried. */
  function DateAttempts(value: string): (a: seq<Option<Date>>)
    ensures |a| == |DateFormats|
  {
    seq(|DateFormats|, k requires 0 <= k < |DateFormats| => ParseDate(DateFormats[k], value))
  }

  /** The outcome of each datetime pattern on one cell, in the order they are tried. */
  function DateTimeAttempts(value: string): (a: seq<Option<DateTime>>)
    ensures |a| == |DateTimeFormats|
  {
    seq(|DateTimeFormats|, k requires 0 <= k < |DateTimeFormats| => ParseDateTime(DateTimeFormats[k], value))
  }

  function FirstDate(value: string): Option<Date> {
    FirstSome(DateAttempts(value))
  }

  function FirstDateTime(value: string): Option<DateTime> {
    FirstSome(DateTimeAttempts(value))
  }

  // ---------------------------------------------------------------------------------------
  // The coercion of one cell.

  /** The numeric branch (`N`, `F`, `I`): a float parse when the text has a point or the code is
      `F`, an int parse otherwise; None when the chosen parse fails. */
  function CoerceNumber(value: string, code: string): TypedValue {
    if '.' in value || code == "F" then
      match ParseFloat(value)
      case Some(d) => Float(d)
      case None => Null
    else
      match ParseInt(value)
      case Some(n) => Integer(n)
      case None => Null
  }

  /** The value one cell of text becomes under one type code. */
  function Coerce(value: string, code: string): TypedValue {
    if code == "N" || code == "F" || code == "I" then CoerceNumber(value, code)
    else if code == "L" then Logical(IsTruthy(value))
    else if code == "D" then
      match FirstDate(value)
      case Some(d) => DateValue(d)
      case None => Null
    else if code == "T" then
      match FirstDateTime(value)
      case Some(t) => DateTimeValue(t)
      case None => Null
    else Chars(value)
  }

  /** The cells of a row paired with the type codes, position by position, as `zip` pairs them. */
  function CoerceRow(row: seq<string>, codes: seq<string>): seq<TypedValue>
    decreases |row|
  {
    if row == [] || codes == [] then []
    else [Coerce(row[0], codes[0])] + CoerceRow(row[1..], codes[1..])
  }

  /** A coerced row has one value per cell that has a code, and value i is cell i under code i. */
  lemma {:induction false} CoerceRowAt(row: seq<string>, codes: seq<string>)
    ensures |CoerceRow(row, codes)| == Min(|row|, |codes|)
    ensures forall i :: 0 <= i < Min(|row|, |codes|) ==> CoerceRow(row, codes)[i] == Coerce(row[i], codes[i])
    decreases |row|
  {
    if row != [] && codes != [] {
      CoerceRowAt(row[1..], codes[1..]);
      var r := CoerceRow(row, codes);
      forall i | 1 <= i < Min(|row|, |codes|) ensures r[i] == Coerce(row[i], codes[i]) {
        assert r[i] == CoerceRow(row[1..], codes[1..])[i - 1];
      }
    }
  }

  // ---------------------------------------------------------------------------------------
  // The loops of the conversion, as the source writes them.

  /** The `D` branch: try each date pattern in order, stop at the first that parses. */
  method ParseDateCell(value: string) returns (r: Option<Date>)
    ensures r == FirstDate(value)
  {
    ghost var attempts := DateAttempts(value);
    r := None;
    var i := 0;
    while i < |DateFormats|
      invariant 0 <= i <= |DateFormats|
      invariant r.None? && FirstSome(attempts[i..]) == FirstSome(attempts)
    {
      var attempt := ParseDate(DateFormats[i], value);
      assert attempts[i..][0] == attempt;
      if attempt.Some? {
        r := attempt;
        break;
      }
      assert attempts[i..][1..] == attempts[i + 1..];
      i := i + 1;
    }
  }

  /** The `T` branch: try each datetime pattern in order, stop at the first that parses. */
  method ParseDateTimeCell(value: string) returns (r: Option<DateTime>)
    ensures r == FirstDateTime(value)
  {
    ghost var attempts := DateTimeAttempts(value);
    r := None;
    var i := 0;
    while i < |DateTimeFormats|
      invariant 0 <= i <= |DateTimeFormats|
      invariant r.None? && FirstSome(attempts[i..]) == FirstSome(attempts)
    {
      var attempt := ParseDateTime(DateTimeFormats[i], value);
      assert attempts[i..][0] == attempt;
      if attempt.Some? {
        r := attempt;
        break;
      }
      assert attempts[i..][1..] == attempts[i + 1..];
      i := i + 1;
    }
  }

  /** The dispatch on one cell's type code, as the loop body writes it. */
  method ConvertCell(value: string, code: string) returns (v: TypedValue)
    ensures v == Coerce(value, code)
  {
    if code == "N" || code == "F" || code == "I" {
      v := CoerceNumber(value, code);
    } else if code == "L" {
      v := Logical(IsTruthy(value));
    } else if code == "D" {
      var d := ParseDateCell(value);
      v := if d.Some? then DateValue(d.value) else Null;
    } else if code == "T" {
      var t := ParseDateTimeCell(value);
      v := if t.Some? then DateTimeValue(t.value) else Null;
    } else {
      v := Chars(value);
    }
  }

  /** Builds the converted record of one row: one value appended per (cell, code) pair. */
  method ConvertRow(row: seq<string>, codes: seq<string>) returns (converted: Record)
    ensures converted == CoerceRow(row, codes)
    ensures |converted| == Min(|row|, |codes|)
    ensures forall i :: 0 <= i < |converted| ==> converted[i] == Coerce(row[i], codes[i])
  {
    ghost var spec := CoerceRow(row, codes);
    CoerceRowAt(row, codes);
    converted := [];
    var i := 0;
    while i < |row| && i < |codes|
      invariant 0 <= i <= |row| && i <= |codes|
      invariant converted == spec[..i]
    {
      var v := ConvertCell(row[i], codes[i]);
      assert spec[..i + 1] == spec[..i] + [spec[i]];
      converted := converted + [v];
      i := i + 1;
    }
    assert spec[..i] == spec;
  }

  // ---------------------------------------------------------------------------------------
  // What the coercion promises.

  lemma NoPointInIntegerText(n: int)
    ensures '.' !in IntToString(n)
  {
  }

  /** Under `N` and `I` an integer's text becomes that integer. */
  lemma CoerceIntegerText(n: int, code: string)
    requires code == "N" || code == "I"
    ensures Coerce(IntToString(n), code) == Integer(n)
  {
    NoPointInIntegerText(n);
    ParseIntRoundTrip(n);
  }

  /** Under `F` the same text becomes a float, with the same number. */
  lemma CoerceIntegerTextAsFloat(n: int)
    ensures Coerce(IntToString(n), "F") == Float(Decimal(n, 0))
  {
    NoPointInIntegerText(n);
    ParseIntRoundTrip(n);
    FloatParseExtendsIntParse(IntToString(n));
  }

  /** Text with a point becomes a float under every numeric code, `I` included. */
  lemma CoercePointedText(d: Decimal, code: string)
    requires code == "N" || code == "F" || code == "I"
    ensures Coerce(DecimalToString(d), code) == Float(d)
  {
    ParseFloatRoundTrip(d);
  }

  /** Text that no numeric parse accepts becomes None under every numeric code; the conversion
      goes on. */
  lemma UnparsableNumberIsNull(value: string, code: string)
    requires code == "N" || code == "F" || code == "I"
    requires ParseFloat(value).None?
    ensures Coerce(value, code) == Null
  {
    if '.' !in value {
      FloatParseExtendsIntParse(value);
    }
  }

  /** The parser choice for every text under a numeric code: a point or the code `F` rules out
      an integer, anything else rules out a float, and the value is a number or None. */
  lemma NumericParseChoice(value: string, code: string)
    requires code == "N" || code == "F" || code == "I"
    ensures ('.' in value || code == "F") ==> !Coerce(value, code).Integer?
    ensures !('.' in value || code == "F") ==> !Coerce(value, code).Float?
    ensures Coerce(value, code).Integer? || Coerce(value, code).Float? || Coerce(value, code) == Null
  {
  }

  /** A logical cell is true exactly when it spells a truthy word in any letter case, and false
      otherwise; it is never None. */
  lemma LogicalCoercion(value: string)
    ensures Coerce(value, "L") ==
      Logical(exists w :: w in TruthyWords && EqualsIgnoreCase(value, w))
  {
    forall w | w in TruthyWords ensures Lower(value) == w <==> EqualsIgnoreCase(value, w) {
      assert Lower(w) == w;
      LowerEqualIffEqualsIgnoreCase(value, w);
    }
  }

  /** Any code outside N, F, I, L, D and T keeps the raw text, the empty text included. */
  lemma PassThrough(value: string, code: string)
    requires code !in ["N", "F", "I", "L", "D", "T"]
    ensures Coerce(value, code) == Chars(value)
  {
  }

  lemma FirstDateOfYearMonthDay(d: Date)
    requires ValidDate(d)
    ensures FirstDate(FormatDate(YearMonthDay, d)) == Some(d)
  {
    var value := FormatDate(YearMonthDay, d);
    ParseFormatDate(YearMonthDay, d);
    FirstSomeOfThree(DateAttempts(value));
  }

  lemma FirstDateOfMonthDayYear(d: Date)
    requires ValidDate(d)
    ensures FirstDate(FormatDate(MonthDayYear, d)) == Some(d)
  {
    var value := FormatDate(MonthDayYear, d);
    ParseFormatDate(MonthDayYear, d);
    MonthDayYearIsNotYearMonthDay(d);
    FirstSomeOfThree(DateAttempts(value));
  }

  lemma FirstDateOfDayMonthNameYear(d: Date)
    requires ValidDate(d)
    ensures FirstDate(FormatDate(DayMonthNameYear, d)) == Some(d)
  {
    var value := FormatDate(DayMonthNameYear, d);
    ParseFormatDate(DayMonthNameYear, d);
    DayMonthNameYearIsNotYearMonthDay(d);
    DayMonthNameYearIsNotMonthDayYear(d);
    FirstSomeOfThree(DateAttempts(value));
  }

  /** A date written in any of the three patterns is found: the patterns before the matching
      one refuse the text. */
  lemma FirstDateOfFormatted(f: DateFormat, d: Date)
    requires ValidDate(d)
    ensures FirstDate(FormatDate(f, d)) == Some(d)
  {
    match f
    case YearMonthDay => FirstDateOfYearMonthDay(d);
    case MonthDayYear => FirstDateOfMonthDayYear(d);
    case DayMonthNameYear => FirstDateOfDayMonthNameYear(d);
  }

  /** Under `D`, a date written in any of the three patterns becomes that date. */
  lemma CoerceFormattedDate(f: DateFormat, d: Date)
    requires ValidDate(d)
    ensures Coerce(FormatDate(f, d), "D") == DateValue(d)
  {
    FirstDateOfFormatted(f, d);
  }

  /** A datetime written in either pattern is found. */
  lemma FirstDateTimeOfFormatted(f: DateTimeFormat, t: DateTime)
    requires ValidDateTime(t)
    ensures FirstDateTime(FormatDateTime(f, t)) == Some(t)
  {
    var value := FormatDateTime(f, t);
    ParseFormatDateTime(f, t);
    if f == MonthDayYearClock {
      MonthDayYearClockIsNotYearMonthDayClock(t);
    }
    FirstSomeOfTwo(DateTimeAttempts(value));
  }

  /** Under `T`, a datetime written in either pattern becomes that datetime. */
  lemma CoerceFormattedDateTime(f: DateTimeFormat, t: DateTime)
    requires ValidDateTime(t)
    ensures Coerce(FormatDateTime(f, t), "T") == DateTimeValue(t)
  {
    FirstDateTimeOfFormatted(f, t);
  }
}
