/** `csv_to_dbf`: resolve the schema from the header row and the supplied names and types, create
    the table, then for each data row in order keep it when it has one cell per field, coerce
    it and append it. */
module Conversion {
  import opened Wrappers
  import opened Text
  import opened Schema
  import opened Coercion
  import opened DbfTable

  datatype ConversionError =
    | EmptyInput                     // `next(reader)` finds no header row
    | BadSchema(reason: SchemaError) // one of the two `ValueError`s

  /** What a conversion leaves behind: the table's structure and records, or the error that
      stopped it before the table was created. */
  datatype Outcome =
    | Converted(structure: seq<FieldSpec>, records: seq<Record>)
    | Failed(error: ConversionError)

  /** The records the data rows yield: each row with exactly `width` cells, coerced, in order. */
  function KeptRecords(rows: seq<seq<string>>, codes: seq<string>, width: nat): seq<Record>
    decreases |rows|
  {
    if rows == [] then []
    else
      var last := rows[|rows| - 1];
      KeptRecords(rows[..|rows| - 1], codes, width) + (if |last| == width then [CoerceRow(last, codes)] else [])
  }

  /** The positions of the rows with exactly `width` cells, in increasing order. */
  function KeptIndices(rows: seq<seq<string>>, width: nat): seq<nat>
    decreases |rows|
  {
    if rows == [] then []
    else KeptIndices(rows[..|rows| - 1], width) + (if |rows[|rows| - 1]| == width then [|rows| - 1] else [])
  }

  /** The whole conversion, stated as a value. */
  function Convert(lines: seq<seq<string>>, fieldNames: Option<seq<string>>, fieldTypes: Option<seq<string>>): Outcome {
    if lines == [] then Failed(EmptyInput)
    else
      match ResolveFieldNames(lines[0], fieldNames)
      case Err(e) => Failed(BadSchema(e))
      case Ok(names) =>
        match ResolveFieldTypes(|names|, fieldTypes)
        case Err(e) => Failed(BadSchema(e))
        case Ok(codes) => Converted(Zip(names, codes), KeptRecords(lines[1..], codes, |names|))
  }

  /** Converts the rows a CSV reader yields (the first is the header) into a table. */
  method CsvToDbf(lines: seq<seq<string>>, fieldNames: Option<seq<string>>, fieldTypes: Option<seq<string>>)
    returns (outcome: Outcome)
    ensures outcome == Convert(lines, fieldNames, fieldTypes)
    ensures lines == [] ==> outcome == Failed(EmptyInput)
    ensures lines != [] && fieldNames.Some? && |fieldNames.value| != |lines[0]| ==>
      outcome == Failed(BadSchema(FieldNameCount))
    ensures (lines != [] && (fieldNames.None? || |fieldNames.value| == |lines[0]|) &&
             fieldTypes.Some? && |fieldTypes.value| != |lines[0]|) ==>
      outcome == Failed(BadSchema(FieldTypeCount))
    ensures outcome.Failed? <==>
      (lines == [] ||
       (fieldNames.Some? && |fieldNames.value| != |lines[0]|) ||
       (fieldTypes.Some? && |fieldTypes.value| != |lines[0]|))
    ensures outcome.Converted? ==>
      lines != [] && |outcome.structure| == |lines[0]| &&
      forall k :: 0 <= k < |outcome.records| ==> |outcome.records[k]| == |lines[0]|
  {
    if |lines| == 0 {
      return Failed(EmptyInput);
    }
    var header := lines[0];
    var names: seq<string>;
    match ResolveFieldNames(header, fieldNames) {
      case Err(e) => return Failed(BadSchema(e));
      case Ok(resolved) => names := resolved;
    }
    var codes: seq<string>;
    match ResolveFieldTypes(|names|, fieldTypes) {
      case Err(e) => return Failed(BadSchema(e));
      case Ok(resolved) => codes := resolved;
    }
    var structure := BuildStructure(names, codes);
    var table := new Table(structure);
    table.Open();
    AppendRows(table, lines, codes, |names|);
    table.Close();
    outcome := Converted(table.structure, table.records);
    KeptRecordsWidth(lines[1..], codes, |names|);
  }

  /** The append loop: every data row after the header, in order, that has `width` cells is
      coerced and appended to the open, empty table. */
  method AppendRows(table: Table, lines: seq<seq<string>>, codes: seq<string>, width: nat)
    requires 1 <= |lines| && table.isOpen && table.records == []
    modifies table
    ensures table.isOpen
    ensures table.records == KeptRecords(lines[1..], codes, width)
  {
    var i := 1;
    while i < |lines|
      invariant 1 <= i <= |lines|
      invariant table.isOpen
      invariant table.records == KeptRecords(lines[1..i], codes, width)
    {
      var row := lines[i];
      assert lines[1..i + 1] == lines[1..i] + [row];
      KeptRecordsSnoc(lines[1..i], row, codes, width);
      if |row| == width {
        var converted := ConvertRow(row, codes);
        table.Append(converted);
      }
      i := i + 1;
    }
    assert lines[1..i] == lines[1..];
  }

  // ---------------------------------------------------------------------------------------
  // Which rows are kept, and in which order.

  /** The kept positions are increasing, and a position is kept exactly when its row has
      `width` cells. */
  lemma {:induction false} KeptIndicesExact(rows: seq<seq<string>>, width: nat)
    ensures forall k :: 0 <= k < |KeptIndices(rows, width)| ==> KeptIndices(rows, width)[k] < |rows|
    ensures forall k, l :: 0 <= k < l < |KeptIndices(rows, width)| ==>
      KeptIndices(rows, width)[k] < KeptIndices(rows, width)[l]
    ensures forall j :: 0 <= j < |rows| ==> (j in KeptIndices(rows, width) <==> |rows[j]| == width)
    decreases |rows|
  {
    if rows != [] {
      var front := rows[..|rows| - 1];
      KeptIndicesExact(front, width);
      assert forall j :: 0 <= j < |front| ==> front[j] == rows[j];
    }
  }

  /** Record k is the coercion of the k-th kept row. */
  lemma {:induction false} KeptRecordsByIndex(rows: seq<seq<string>>, codes: seq<string>, width: nat)
    ensures |KeptRecords(rows, codes, width)| == |KeptIndices(rows, width)|
    ensures forall k :: 0 <= k < |KeptIndices(rows, width)| ==>
      KeptIndices(rows, width)[k] < |rows| &&
      KeptRecords(rows, codes, width)[k] == CoerceRow(rows[KeptIndices(rows, width)[k]], codes)
    decreases |rows|
  {
    KeptIndicesExact(rows, width);
    if rows != [] {
      var front := rows[..|rows| - 1];
      KeptRecordsByIndex(front, codes, width);
      KeptIndicesExact(front, width);
      forall k | 0 <= k < |KeptIndices(front, width)|
        ensures rows[KeptIndices(front, width)[k]] == front[KeptIndices(front, width)[k]]
      {
      }
    }
  }

  /** One more row: its record follows the others when it has `width` cells. */
  lemma KeptRecordsSnoc(rows: seq<seq<string>>, row: seq<string>, codes: seq<string>, width: nat)
    ensures KeptRecords(rows + [row], codes, width) ==
      KeptRecords(rows, codes, width) + (if |row| == width then [CoerceRow(row, codes)] else [])
  {
    assert (rows + [row])[..|rows|] == rows;
  }

  /** Every kept record has one value per field. */
  lemma {:induction false} KeptRecordsWidth(rows: seq<seq<string>>, codes: seq<string>, width: nat)
    requires |codes| == width
    ensures forall k :: 0 <= k < |KeptRecords(rows, codes, width)| ==> |KeptRecords(rows, codes, width)[k]| == width
    decreases |rows|
  {
    if rows != [] {
      var last := rows[|rows| - 1];
      KeptRecordsWidth(rows[..|rows| - 1], codes, width);
      CoerceRowAt(last, codes);
    }
  }

  /** Streaming: the records of consecutive stretches of rows are the concatenation of their
      records, so a row is processed the same way whatever came before or after it. */
  lemma {:induction false} KeptRecordsAppend(a: seq<seq<string>>, b: seq<seq<string>>, codes: seq<string>, width: nat)
    ensures KeptRecords(a + b, codes, width) == KeptRecords(a, codes, width) + KeptRecords(b, codes, width)
    decreases |b|
  {
    if b == [] {
      assert a + b == a;
    } else {
      var front := b[..|b| - 1];
      assert (a + b)[..|a + b| - 1] == a + front;
      assert (a + b)[|a + b| - 1] == b[|b| - 1];
      KeptRecordsAppend(a, front, codes, width);
    }
  }

  /** A row of the wrong width is dropped and processing goes on with the next row. */
  lemma SkippedRowDoesNotStop(a: seq<seq<string>>, bad: seq<string>, b: seq<seq<string>>, codes: seq<string>, width: nat)
    requires |bad| != width
    ensures KeptRecords(a + [bad] + b, codes, width) == KeptRecords(a, codes, width) + KeptRecords(b, codes, width)
  {
    KeptRecordsAppend(a + [bad], b, codes, width);
    KeptRecordsAppend(a, [bad], codes, width);
    assert [bad][..0] == [];
  }

  /** Every kept record has one value per field, and value i is cell i coerced under code i. */
  lemma KeptRecordsAligned(rows: seq<seq<string>>, codes: seq<string>, width: nat)
    requires |codes| == width
    ensures |KeptRecords(rows, codes, width)| == |KeptIndices(rows, width)|
    ensures forall k :: 0 <= k < |KeptIndices(rows, width)| ==>
      KeptIndices(rows, width)[k] < |rows| && |rows[KeptIndices(rows, width)[k]]| == width
    ensures forall k :: 0 <= k < |KeptRecords(rows, codes, width)| ==>
      |KeptRecords(rows, codes, width)[k]| == width
    ensures forall k, i :: 0 <= k < |KeptIndices(rows, width)| && 0 <= i < width ==>
      KeptRecords(rows, codes, width)[k][i] == Coerce(rows[KeptIndices(rows, width)[k]][i], codes[i])
  {
    KeptRecordsByIndex(rows, codes, width);
    KeptIndicesExact(rows, width);
    forall k | 0 <= k < |KeptIndices(rows, width)| {
      CoerceRowAt(rows[KeptIndices(rows, width)[k]], codes);
    }
  }

  // ---------------------------------------------------------------------------------------
  // The conversion as a whole.

  /** The structure of a converted table: names are the header's when none are supplied, codes
      are all `C` when none are supplied, and the supplied ones (upper-cased) otherwise, paired
      position by position. */
  lemma ConvertedStructure(lines: seq<seq<string>>, fieldNames: Option<seq<string>>, fieldTypes: Option<seq<string>>)
    requires Convert(lines, fieldNames, fieldTypes).Converted?
    ensures lines != []
    ensures var structure := Convert(lines, fieldNames, fieldTypes).structure;
      |structure| == |lines[0]| &&
      NamesOf(structure) == (if fieldNames.None? then lines[0] else fieldNames.value) &&
      CodesOf(structure) == (if fieldTypes.None? then DefaultCodes(|lines[0]|) else UpperAll(fieldTypes.value))
  {
  }

  /** The schema errors are decided by the header row alone: whatever data rows follow, the
      outcome is the same error, so no row is read or written before it. */
  lemma SchemaErrorsPrecedeRows(header: seq<string>, rows: seq<seq<string>>, other: seq<seq<string>>,
                                fieldNames: Option<seq<string>>, fieldTypes: Option<seq<string>>)
    requires Convert([header] + rows, fieldNames, fieldTypes).Failed?
    ensures Convert([header] + other, fieldNames, fieldTypes) == Convert([header] + rows, fieldNames, fieldTypes)
  {
    assert ([header] + rows)[0] == header && ([header] + other)[0] == header;
  }

  /** With no supplied types every field is `C`, and every kept record is its row's text
      unchanged: converting back to text gives the cells back. */
  lemma AllCharacterPassThrough(lines: seq<seq<string>>, fieldNames: Option<seq<string>>)
    requires Convert(lines, fieldNames, None).Converted?
    ensures var out := Convert(lines, fieldNames, None);
      |out.records| == |KeptIndices(lines[1..], |lines[0]|)| &&
      forall k, i :: 0 <= k < |out.records| && 0 <= i < |lines[0]| ==>
        KeptIndices(lines[1..], |lines[0]|)[k] < |lines[1..]| &&
        |lines[1..][KeptIndices(lines[1..], |lines[0]|)[k]]| == |lines[0]| &&
        |out.records[k]| == |lines[0]| &&
        out.records[k][i] == Chars(lines[1..][KeptIndices(lines[1..], |lines[0]|)[k]][i])
  {
    var width, rows := |lines[0]|, lines[1..];
    var codes := DefaultCodes(width);
    var idx := KeptIndices(rows, width);
    assert Convert(lines, fieldNames, None).records == KeptRecords(rows, codes, width);
    KeptRecordsAligned(rows, codes, width);
    forall k, i | 0 <= k < |idx| && 0 <= i < width
      ensures KeptRecords(rows, codes, width)[k][i] == Chars(rows[idx[k]][i])
    {
      assert codes[i] == "C";
    }
  }
}
