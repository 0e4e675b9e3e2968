# csv_to_dbf, modelled in Dafny

This project models `csv_to_dbf` from `COBA/csvtodbf.py`. The function converts the rows of a
CSV file into a dBASE table in four stages:

1. Schema resolution. The field names are the header row, or the supplied names if there are as
   many as there are columns. The type codes are all `C`, or the supplied codes upper-cased if
   there is one per name. Names and codes are paired positionally into the table structure.
2. Row filter. A data row is kept only if it has one cell per field. Any other row is skipped.
3. Cell coercion. Each cell is converted by its type code:
   - `N`/`F`/`I`: a float parse if the text has a point or the code is `F`, an int parse
     otherwise, and None if the parse fails.
   - `L`: membership in a set of truthy words.
   - `D` and `T`: an ordered list of `strptime` patterns, where the first that parses wins.
   - Any other code: the raw text.
4. Append loop. Every kept row is coerced and appended to the open table, in order.

Modules, one file each:

- `wrappers.dfy`: `Option` and `Result`.
- `text.dfy`: ASCII digits, decimal values, zero padding, whitespace and ASCII case mapping.
- `numbers.dfy`: Python's `int(...)` and `float(...)` on plain signed decimal literals. A float
  literal is kept as the exact decimal it denotes, `Decimal(mantissa, scale)`.
- `dates.dfy`: the five `strptime` patterns as partial parsers, directive by directive, as CPython's
  `_strptime` regular expressions read them. It also has the `strftime` renderings they invert.
- `coercion.dfy`: the per-cell dispatch (`Coerce`) and the for/else first-success search
  (`FirstSome`). It also has the loops of the source as methods proved against those functions.
- `schema.dfy`: name and type resolution and the structure loop.
- `dbftable.dfy`: the destination table as a class. Its record sequence only grows.
- `conversion.dfy`: the whole conversion. `Convert` states it as a value and `CsvToDbf` is the
  method that performs it. The file also holds lemmas about which rows are kept and in which order.
- `examples.dfy`: concrete cells from the demonstration call and the edge cases of the coercion.

The input is the list of rows the CSV reader yields, header first. A call ends in one of three
ways:

- the table's structure and records;
- `EmptyInput`, when there is no header row;
- one of the two `ValueError`s of schema resolution.

Points of the code that the model keeps as written:

- `I` shares the `N` branch (`COBA/csvtodbf.py:54-56`), so text with a point under `I` becomes a
  float, even though the docstring calls `I` Integer (`COBA/csvtodbf.py:19`).
- An empty file makes `next(reader)` raise `StopIteration` (`COBA/csvtodbf.py:25`). Only the
  catch-all handler catches it (`COBA/csvtodbf.py:98-99`), and the model reports it as
  `EmptyInput`.
- `table.close()` runs only when the loop completes (`COBA/csvtodbf.py:89`), not in a `finally`.
- The function keeps no counts of written or skipped rows and returns nothing.

## Model

| member | source | states |
|---|---|---|
| Schema.ResolveFieldNames | COBA/csvtodbf.py:27-30 | resolved names have the header's length; the only failure is the field-name-count error |
| Schema.ResolveFieldTypes | COBA/csvtodbf.py:32-37 | resolved codes number one per field and contain no lower-case letter; the only failure is the field-type-count error |
| Schema.UpperAll | COBA/csvtodbf.py:37 | defines the list comprehension `[ftype.upper() for ftype in field_types]`: one upper-cased code per supplied code, in order |
| Schema.Zip | COBA/csvtodbf.py:41 | defines `zip(field_names, field_types)`: one pair per position of the shorter list |
| Schema.DefaultCodes | COBA/csvtodbf.py:33 | `count` codes, every one `C` |
| Schema.ResolveFieldTypesIgnoresCase | COBA/csvtodbf.py:37 | supplied codes that agree ignoring letter case resolve identically |
| Schema.SuppliedCodeSelects | COBA/csvtodbf.py:37 | a supplied code, once upper-cased, equals an upper-case branch code exactly when it spells that code in some letter case |
| Schema.BuildStructure | COBA/csvtodbf.py:40-42 | the structure has one pair per position of the shorter list; pair i is (name i, code i); with equal lengths its names and codes are exactly the inputs |
| Text.EqualsIgnoreCase | COBA/csvtodbf.py:37 | defines case-insensitive equality independently of the case mappings: equal lengths and, position by position, the same character or the same ASCII letter 32 code points apart |
| Text.Upper | COBA/csvtodbf.py:37 | defines `str.upper()` on ASCII: each lower-case ASCII letter moves 32 code points down, every other character is kept, the length is kept |
| Text.Lower | COBA/csvtodbf.py:60 | defines `str.lower()` on ASCII: each upper-case ASCII letter moves 32 code points up, every other character is kept, the length is kept |
| Text.UpperEqualIffEqualsIgnoreCase | COBA/csvtodbf.py:37 | two strings have the same upper-casing exactly when they are equal ignoring case, both directions |
| Text.LowerEqualIffEqualsIgnoreCase | COBA/csvtodbf.py:60 | two strings have the same lower-casing exactly when they are equal ignoring case, both directions |
| Numbers.ParseInt | COBA/csvtodbf.py:56 | text `int` accepts has no point and has a digit |
| Numbers.ParseFloat | COBA/csvtodbf.py:56 | defines `float(value)` on plain literals: an optional sign, then what `ParseUnsignedFloat` accepts |
| Numbers.ParseUnsignedFloat | COBA/csvtodbf.py:56 | defines the unsigned literal: digits, optionally a point and digits, at least one digit, read as an exact decimal |
| Numbers.ParseIntRoundTrip | COBA/csvtodbf.py:56 | `int` reads back every integer's decimal text |
| Numbers.ParsePointed | COBA/csvtodbf.py:56 | digits, a point and digits, either run possibly empty but not both (so `".5"` and `"5."` too), read as the decimal whose digits are both parts and whose scale is the fraction's length |
| Numbers.ParseFloatRoundTrip | COBA/csvtodbf.py:56 | `float` reads back every decimal's text, mantissa and scale alike |
| Numbers.FloatParseExtendsIntParse | COBA/csvtodbf.py:56 | on text without a point, `float` accepts exactly what `int` accepts and yields the same number |
| Dates.ScanDate | COBA/csvtodbf.py:64-66 | the directives of each date pattern read in order; a date it reads has month 1..12 and day 1..31 |
| Dates.ScanClock | COBA/csvtodbf.py:75-77 | `%H:%M:%S` read in order; hour 0..23 and minute 0..59 |
| Dates.ParseDate | COBA/csvtodbf.py:66 | a date a pattern yields is a real calendar date |
| Dates.ParseDateTime | COBA/csvtodbf.py:77 | a datetime a pattern yields is a real date and time of day |
| Dates.ScanDateOf | COBA/csvtodbf.py:64-66 | each date pattern reads its own rendering of a valid date, leaving the following text |
| Dates.ParseFormatDate | COBA/csvtodbf.py:64-66 | each date pattern parses back the date it renders |
| Dates.ScanClockOf | COBA/csvtodbf.py:75-77 | `%H:%M:%S` reads back a rendered time of day |
| Dates.ParseFormatDateTime | COBA/csvtodbf.py:75-77 | each datetime pattern parses back the datetime it renders |
| Dates.MonthDayYearIsNotYearMonthDay | COBA/csvtodbf.py:64 | `%Y-%m-%d` refuses every date written as `%m/%d/%Y` |
| Dates.DayMonthNameYearIsNotYearMonthDay | COBA/csvtodbf.py:64 | `%Y-%m-%d` refuses every date written as `%d-%b-%Y` |
| Dates.DayMonthNameYearIsNotMonthDayYear | COBA/csvtodbf.py:64 | `%m/%d/%Y` refuses every date written as `%d-%b-%Y` |
| Dates.MonthDayYearClockIsNotYearMonthDayClock | COBA/csvtodbf.py:75 | `%Y-%m-%d %H:%M:%S` refuses every datetime written as `%m/%d/%Y %H:%M:%S` |
| Coercion.IsTruthy | COBA/csvtodbf.py:60 | defines `value.lower() in ['true', 't', 'yes', 'y', '1']` |
| Coercion.CoerceNumber | COBA/csvtodbf.py:54-58 | defines the numeric branch: the float parse when the text has a point or the code is `F`, the int parse otherwise, None when it fails |
| Coercion.Coerce | COBA/csvtodbf.py:54-84 | defines the value of one cell under one code, branch by branch in the source's order |
| Coercion.CoerceRow | COBA/csvtodbf.py:52-84 | defines the converted row: `Coerce` over the zipped (cell, code) pairs |
| Coercion.FirstSome | COBA/csvtodbf.py:64-71 | defines the for/else search: the first successful attempt, None when all fail |
| Coercion.DateAttempts | COBA/csvtodbf.py:64-66 | one `strptime` outcome per date pattern, in the order tried |
| Coercion.DateTimeAttempts | COBA/csvtodbf.py:75-77 | one `strptime` outcome per datetime pattern, in the order tried |
| Coercion.FirstDate | COBA/csvtodbf.py:61-71 | defines the `D` search: the first date pattern that parses |
| Coercion.FirstDateTime | COBA/csvtodbf.py:72-82 | defines the `T` search: the first datetime pattern that parses |
| Coercion.FirstSomeIsEarliest | COBA/csvtodbf.py:64-71 | the for/else result is None exactly when every attempt fails; otherwise it is an attempt all of whose predecessors failed |
| Coercion.FirstSomeAt | COBA/csvtodbf.py:64-69 | an attempt that succeeds after only failures is the result |
| Coercion.FirstSomeIgnoresLater | COBA/csvtodbf.py:66-67 | after a success, later attempts are not consulted |
| Coercion.ParseDateCell | COBA/csvtodbf.py:61-71 | the loop over the date patterns with `break` yields the first success, or None |
| Coercion.ParseDateTimeCell | COBA/csvtodbf.py:72-82 | the loop over the datetime patterns with `break` yields the first success, or None |
| Coercion.ConvertCell | COBA/csvtodbf.py:54-84 | the branch chain on the type code yields the coercion of the cell |
| Coercion.ConvertRow | COBA/csvtodbf.py:52-84 | one value per (cell, code) pair, value i being cell i coerced under code i |
| Coercion.CoerceRowAt | COBA/csvtodbf.py:53-84 | a coerced row has one value per zipped pair and value i is the coercion of cell i under code i |
| Coercion.CoerceIntegerText | COBA/csvtodbf.py:54-56 | under `N` and `I` an integer's text becomes that integer |
| Coercion.CoerceIntegerTextAsFloat | COBA/csvtodbf.py:54-56 | under `F` an integer's text becomes a float with the same value |
| Coercion.CoercePointedText | COBA/csvtodbf.py:54-56 | under `N`, `F` and `I`, text with a point becomes the float it denotes |
| Coercion.UnparsableNumberIsNull | COBA/csvtodbf.py:55-58 | text that `float` refuses becomes None under every numeric code, with no abort |
| Coercion.NumericParseChoice | COBA/csvtodbf.py:54-58 | for every text under `N`, `F` or `I`: a point or the code `F` means the value is never an integer, otherwise it is never a float, and it is always a number or None |
| Coercion.LogicalCoercion | COBA/csvtodbf.py:59-60 | a logical cell is true exactly when it spells a truthy word in some letter case, false otherwise, never None |
| Coercion.PassThrough | COBA/csvtodbf.py:83-84 | any code other than N, F, I, L, D, T keeps the raw text |
| Coercion.FirstDateOfFormatted | COBA/csvtodbf.py:61-71 | a date written in any of the three patterns is found, because the earlier patterns refuse it |
| Coercion.CoerceFormattedDate | COBA/csvtodbf.py:61-71 | under `D`, a date written in any pattern becomes that date |
| Coercion.FirstDateTimeOfFormatted | COBA/csvtodbf.py:72-82 | a datetime written in either pattern is found |
| Coercion.CoerceFormattedDateTime | COBA/csvtodbf.py:72-82 | under `T`, a datetime written in either pattern becomes that datetime |
| DbfTable.Table.constructor | COBA/csvtodbf.py:45 | a new table has the given structure, no records and is not open |
| DbfTable.Table.Open | COBA/csvtodbf.py:46 | the table is open and its records are unchanged |
| DbfTable.Table.Append | COBA/csvtodbf.py:85 | the record goes after every earlier record |
| DbfTable.Table.Close | COBA/csvtodbf.py:89 | the table is closed and its records are unchanged |
| Conversion.KeptRecords | COBA/csvtodbf.py:49-87 | defines the records the data rows yield: each row of the schema's width, coerced, in order |
| Conversion.KeptIndices | COBA/csvtodbf.py:49-50 | defines the positions of the rows of the schema's width, in increasing order |
| Conversion.Convert | COBA/csvtodbf.py:25-89 | defines the whole conversion as a value: `EmptyInput`, a schema error, or the zipped structure with the kept records |
| Conversion.CsvToDbf | COBA/csvtodbf.py:25-89 | the method's outcome is the conversion `Convert` states; an empty input, a name-count mismatch and a type-count mismatch are each their error, and the call fails exactly in those three cases; a converted table has one field per column and every record one value per field |
| Conversion.AppendRows | COBA/csvtodbf.py:49-87 | the open table ends up holding exactly the records of the kept rows, in order |
| Conversion.KeptIndicesExact | COBA/csvtodbf.py:49-50 | the kept positions increase, and a row is kept exactly when its width is the schema's |
| Conversion.KeptRecordsByIndex | COBA/csvtodbf.py:49-87 | record k is the coercion of the k-th kept row |
| Conversion.KeptRecordsSnoc | COBA/csvtodbf.py:49-87 | one more row appends its record if it has the schema's width, and nothing otherwise |
| Conversion.KeptRecordsWidth | COBA/csvtodbf.py:52-85 | every kept record has one value per field |
| Conversion.KeptRecordsAppend | COBA/csvtodbf.py:49-87 | the records of consecutive stretches of rows concatenate, so rows stream independently |
| Conversion.SkippedRowDoesNotStop | COBA/csvtodbf.py:86-87 | a row of the wrong width contributes nothing, and the rows after it are still converted |
| Conversion.KeptRecordsAligned | COBA/csvtodbf.py:49-87 | every record has one value per field, and value i of record k is cell i of the k-th kept row under code i |
| Conversion.ConvertedStructure | COBA/csvtodbf.py:27-42 | a converted table's names are the header's or the supplied ones, its codes all `C` or the supplied ones upper-cased, one per column |
| Conversion.SchemaErrorsPrecedeRows | COBA/csvtodbf.py:27-46 | a schema error depends on the header alone, whatever data rows follow |
| Conversion.AllCharacterPassThrough | COBA/csvtodbf.py:32-84 | with no supplied types every kept record is its row's text unchanged |
| Examples.IdCell | COBA/csvtodbf.py:109-110 | `"1"` under `N` is the integer 1 |
| Examples.PriceCell | COBA/csvtodbf.py:109-110 | `"9.99"` under `F` is the float 9.99 |
| Examples.ActiveCell | COBA/csvtodbf.py:109-110 | `"yes"` under `L` is true |
| Examples.OrderDateCell | COBA/csvtodbf.py:109-110 | `"2023-01-15"` under `D` is 15 January 2023 |
| Examples.IntegerCodeReadsPointAsFloat | COBA/csvtodbf.py:54-56 | `"-0.5"` under `I` is the float -0.5, not an error |
| Examples.LeadingPointCell | COBA/csvtodbf.py:56 | `".5"` under `F` is the float 0.5 |
| Examples.NumericDisambiguation | COBA/csvtodbf.py:54-56 | `"42"` is an integer under `N` and a float under `F` |
| Examples.EmptyNumberIsNull | COBA/csvtodbf.py:55-58 | an empty numeric cell is None |
| Examples.NotADate | COBA/csvtodbf.py:61-71 | text that no pattern reads is None under `D` |
| Examples.LogicalSpellings | COBA/csvtodbf.py:60 | `Y` and `1` are true; `0`, `no` and the empty text are false |
| Examples.ShortRowSkipped | COBA/csvtodbf.py:49-87 | a row missing a column is dropped and the full row is converted |
| Examples.TooManyNames | COBA/csvtodbf.py:29-30 | three names for two columns is the field-name-count error |

## Left out

- File handling, `csv.reader` and `next(reader)` are I/O (`COBA/csvtodbf.py:22-25`). The input is
  the list of rows the reader would yield. CSV quoting and dialects are not modelled.
- The `dbf` library is foreign code. `dbf.Table`, `open`, `append` and `close` are modelled by the
  `DbfTable.Table` class, which holds an in-memory sequence of records. The dBASE file format,
  field widths, and the library's own checks and `DBFError` are not modelled.
- All `print` output and the four exception handlers are logging (`COBA/csvtodbf.py:87, 90-99`).
  Errors are outcome values instead.
- Conversion.CsvToDbf: the table is not closed when an error path is taken. The source closes it
  only on success (`COBA/csvtodbf.py:89`), and nothing in the model promises release.
- Numbers.ParseFloat: accepts only an optional sign and digits with at most one point among them.
  Python's `float` also accepts exponents, `inf`, `nan`, surrounding whitespace, underscores and
  non-ASCII digits, and these are refused here.
- Numbers.ParseFloat: the binary double that `float` rounds to is not computed. The result is the
  exact decimal that the text denotes.
- Numbers.ParseFloat: the value keeps the text's digits and scale and is not normalised. `"1.50"`
  and `"1.5"` give different values where Python gives equal floats, and `"-0.0"` and `"0.0"` give
  the same value where Python keeps the sign of zero.
- Numbers.ParseInt: CPython 3.11 and later refuse text of more than 4300 digits with `ValueError`,
  so such a cell becomes None (`COBA/csvtodbf.py:57-58`). The model returns the integer, and
  `Numbers.ParseIntRoundTrip` holds for the model only.
- Numbers.ParseInt: Python's `int` also accepts surrounding whitespace, underscores between digits
  and non-ASCII digits, and these are refused here.
- Dates.ParseDate: `%b` reads the English abbreviations of the C locale only. Other locales'
  month names are not modelled.
- Dates.ParseDate: digits are ASCII only. CPython's `\d` also accepts non-ASCII digits.
- Dates.ParseDateTime: digits and the whitespace that the space of each datetime pattern
  (`COBA/csvtodbf.py:75`) stands for are ASCII only. CPython's `\d` and `\s+` also accept
  non-ASCII digits and spaces.
- Text.Lower: upper- and lower-casing are ASCII only, so Unicode case mapping of type codes and
  logical cells is not modelled.
- The docstring's codes `M` and `B` have no branch of their own. They fall into the pass-through
  branch like any other code, as the code does.
- No counts of written or skipped rows exist, because the source keeps none.
- The demonstration call (`COBA/csvtodbf.py:101-111`) reads a file that is not part of this
  model. Only its field names and type codes are used, in the `Examples` lemmas for single cells.
- `COBA/dbftocsv.py`, `COBA/dbftoxlsx.py` and `SIM/sim.py` are not part of this model. They are
  thin wrappers around foreign libraries and a web application.
