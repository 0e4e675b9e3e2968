/** Concrete conversions: the call in the module's demonstration block and the edge cases the
    coercion rules single out. */
module Examples {
  import opened Wrappers
  import opened Text
  import opened Numbers
  import opened Dates
  import opened Coercion
  import opened Schema
  import opened Conversion

  lemma IdCell()
    ensures Coerce("1", "N") == Integer(1)
  {
    assert IntToString(1) == "1";
    CoerceIntegerText(1, "N");
  }

  lemma PriceCell()
    ensures Coerce("9.99", "F") == Float(Decimal(999, 2))
  {
    assert DecimalToString(Decimal(999, 2)) == "9.99";
    CoercePointedText(Decimal(999, 2), "F");
  }

  lemma ActiveCell()
    ensures Coerce("yes", "L") == Logical(true)
  {
    assert Lower("yes") == "yes";
  }

  lemma OrderDateCell()
    ensures Coerce("2023-01-15", "D") == DateValue(Date(2023, 1, 15))
  {
    assert FirstDate("2023-01-15") == Some(Date(2023, 1, 15)) by { OrderDateFound(); }
  }

  lemma OrderDateFound()
    ensures FirstDate("2023-01-15") == Some(Date(2023, 1, 15))
  {
    OrderDateText();
    FirstDateOfYearMonthDay(Date(2023, 1, 15));
  }

  lemma OrderDateText()
    ensures FormatDate(YearMonthDay, Date(2023, 1, 15)) == "2023-01-15"
  {
  }

  /** `I` shares the numeric branch: text with a point becomes a float, not an error. */
  lemma IntegerCodeReadsPointAsFloat()
    ensures Coerce("-0.5", "I") == Float(Decimal(-5, 1))
  {
    assert DecimalToString(Decimal(-5, 1)) == "-0.5";
    CoercePointedText(Decimal(-5, 1), "I");
  }

  /** An empty integer part is allowed: `".5"` is the float 0.5. */
  lemma LeadingPointCell()
    ensures Coerce(".5", "F") == Float(Decimal(5, 1))
  {
    assert ParseFloat(".5") == Some(Decimal(5, 1)) by { LeadingPointParse(); }
  }

  lemma LeadingPointParse()
    ensures ParseFloat(".5") == Some(Decimal(5, 1))
  {
    assert "" + "." + "5" == ".5";
    assert SplitSign(".5") == Signed(false, ".5");
    ParsePointed(false, "", "5");
    assert "" + "5" == "5";
  }

  /** The same text is an integer under `N` and a float under `F`. */
  lemma NumericDisambiguation()
    ensures Coerce("42", "N") == Integer(42)
    ensures Coerce("42", "F") == Float(Decimal(42, 0))
  {
    assert IntToString(42) == "42";
    CoerceIntegerText(42, "N");
    CoerceIntegerTextAsFloat(42);
  }

  /** An empty numeric cell is None. */
  lemma EmptyNumberIsNull()
    ensures Coerce("", "N") == Null
  {
  }

  /** Text no date pattern reads is None. */
  lemma NotADate()
    ensures Coerce("not-a-date", "D") == Null
  {
    var value := "not-a-date";
    assert ParseDate(YearMonthDay, value).None? by { assert !IsDigit(value[..4][0]); }
    assert DigitPrefixLen(value) == 0;
    assert ParseDate(MonthDayYear, value).None?;
    assert ParseDate(DayMonthNameYear, value).None?;
    FirstSomeIsEarliest(DateAttempts(value));
  }

  lemma LogicalSpellings()
    ensures Coerce("Y", "L") == Logical(true)
    ensures Coerce("1", "L") == Logical(true)
    ensures Coerce("0", "L") == Logical(false)
    ensures Coerce("no", "L") == Logical(false)
    ensures Coerce("", "L") == Logical(false)
  {
    assert Lower("Y") == "y";
    assert Lower("1") == "1";
    assert Lower("0") == "0";
    assert Lower("no") == "no";
  }

  /** A header, a row of the right width and a row missing a column: the short row is dropped. */
  lemma ShortRowSkipped()
    ensures Convert([["ID", "Name"], ["1", "Widget"], ["2"]], None, Some(["n", "c"]))
         == Converted([FieldSpec("ID", "N"), FieldSpec("Name", "C")], [[Integer(1), Chars("Widget")]])
  {
    var lines := [["ID", "Name"], ["1", "Widget"], ["2"]];
    assert Upper("n") == "N" && Upper("c") == "C";
    assert UpperAll(["n", "c"]) == ["N", "C"];
    var codes := ["N", "C"];
    assert lines[1..] == [["1", "Widget"]] + [["2"]];
    SkippedRowDoesNotStop([["1", "Widget"]], ["2"], [], codes, 2);
    assert [["1", "Widget"]] + [["2"]] + [] == lines[1..];
    assert [["1", "Widget"]][..0] == [];
    IdCell();
    CoerceRowAt(["1", "Widget"], codes);
    assert CoerceRow(["1", "Widget"], codes) == [Integer(1), Chars("Widget")];
    assert Zip(["ID", "Name"], codes) == [FieldSpec("ID", "N"), FieldSpec("Name", "C")];
  }

  /** Three supplied names for a two-column header stop the conversion. */
  lemma TooManyNames()
    ensures Convert([["ID", "Name"], ["1", "Widget"]], Some(["ID", "Name", "Price"]), None)
         == Failed(BadSchema(FieldNameCount))
  {
  }
}
