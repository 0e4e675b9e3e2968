/** Schema resolution: the field names, the field type codes, and the table structure that
    pairs them. */
module Schema {
  import opened Wrappers
  import opened Text

  /** The two `ValueError`s of schema resolution. */
  datatype SchemaError =
    | FieldNameCount   // "Number of field names must match the number of columns in the CSV."
    | FieldTypeCount   // "Number of field types must match the number of field names."

  /** One `(name, type)` pair of the table structure. */
  datatype FieldSpec = FieldSpec(name: string, code: string)

  /** The field names: the header row, or the supplied names when there are as many as columns. */
  function ResolveFieldNames(header: seq<string>, fieldNames: Option<seq<string>>): (r: Result<seq<string>, SchemaError>)
    ensures r.Ok? ==> |r.value| == |header|
    ensures r.Err? ==> r.error == FieldNameCount
  {
    if fieldNames.None? then Ok(header)
    else if |fieldNames.value| != |header| then Err(FieldNameCount)
    else Ok(fieldNames.value)
  }

  function DefaultCodes(count: nat): (r: seq<string>)
    ensures |r| == count && forall i :: 0 <= i < count ==> r[i] == "C"
  {
    seq(count, _ => "C")
  }

  function UpperAll(codes: seq<string>): (r: seq<string>)
    ensures |r| == |codes| && forall i :: 0 <= i < |codes| ==> r[i] == Upper(codes[i])
  {
    seq(|codes|, i requires 0 <= i < |codes| => Upper(codes[i]))
  }

  /** The field type codes: all `C` when none are supplied, otherwise the supplied codes
      upper-cased, provided there is one per field name. */
  function ResolveFieldTypes(count: nat, fieldTypes: Option<seq<string>>): (r: Result<seq<string>, SchemaError>)
    ensures r.Ok? ==> |r.value| == count && forall i :: 0 <= i < count ==> IsUpperCase(r.value[i])
    ensures r.Err? ==> r.error == FieldTypeCount
  {
    if fieldTypes.None? then Ok(DefaultCodes(count))
    else if |fieldTypes.value| != count then Err(FieldTypeCount)
    else
      forall c | c in fieldTypes.value ensures IsUpperCase(Upper(c)) { UpperIsCanonical(c); }
      Ok(UpperAll(fieldTypes.value))
  }

  /** Supplied codes that agree ignoring letter case resolve to the same codes. */
  lemma ResolveFieldTypesIgnoresCase(count: nat, a: seq<string>, b: seq<string>)
    requires |a| == |b|
    requires forall i :: 0 <= i < |a| ==> EqualsIgnoreCase(a[i], b[i])
    ensures ResolveFieldTypes(count, Some(a)) == ResolveFieldTypes(count, Some(b))
  {
    forall i | 0 <= i < |a| ensures Upper(a[i]) == Upper(b[i]) {
      UpperEqualIffEqualsIgnoreCase(a[i], b[i]);
    }
    assert UpperAll(a) == UpperAll(b);
  }

  /** A supplied code selects a branch of the coercion exactly when it spells that branch's code
      in some letter case. */
  lemma SuppliedCodeSelects(code: string, branch: string)
    requires IsUpperCase(branch)
    ensures Upper(code) == branch <==> EqualsIgnoreCase(code, branch)
  {
    assert Upper(branch) == branch;
    UpperEqualIffEqualsIgnoreCase(code, branch);
  }

  /** The structure `zip(names, codes)` stands for. */
  function Zip(names: seq<string>, codes: seq<string>): (r: seq<FieldSpec>)
    ensures |r| == Min(|names|, |codes|)
  {
    seq(Min(|names|, |codes|), i requires 0 <= i < Min(|names|, |codes|) => FieldSpec(names[i], codes[i]))
  }

  function NamesOf(structure: seq<FieldSpec>): (r: seq<string>)
    ensures |r| == |structure|
  {
    seq(|structure|, i requires 0 <= i < |structure| => structure[i].name)
  }

  function CodesOf(structure: seq<FieldSpec>): (r: seq<string>)
    ensures |r| == |structure|
  {
    seq(|structure|, i requires 0 <= i < |structure| => structure[i].code)
  }

  /** Builds the table structure by appending one `(name, type)` pair per position. */
  method BuildStructure(names: seq<string>, codes: seq<string>) returns (structure: seq<FieldSpec>)
    ensures |structure| == Min(|names|, |codes|)
    ensures forall i :: 0 <= i < |structure| ==> structure[i] == FieldSpec(names[i], codes[i])
    ensures |names| == |codes| ==> NamesOf(structure) == names && CodesOf(structure) == codes
    ensures structure == Zip(names, codes)
  {
    structure := [];
    var i := 0;
    while i < |names| && i < |codes|
      invariant 0 <= i <= |names| && i <= |codes|
      invariant |structure| == i
      invariant forall j :: 0 <= j < i ==> structure[j] == FieldSpec(names[j], codes[j])
    {
      structure := structure + [FieldSpec(names[i], codes[i])];
      i := i + 1;
    }
  }
}
