/** The destination table as the conversion uses it: created with a structure, opened for
    writing, appended to one record at a time, closed. An append-only sequence of records stands
    for the file. */
module DbfTable {
  import opened Schema
  import opened Coercion

  class Table {
    const structure: seq<FieldSpec>
    var records: seq<Record>
    var isOpen: bool

    /** `dbf.Table(path, structure)`: a new, empty table, not yet open. */
    constructor (structure: seq<FieldSpec>)
      ensures this.structure == structure && records == [] && !isOpen
    {
      this.structure := structure;
      records := [];
      isOpen := false;
    }

    /** `table.open(mode=dbf.WRITE)` */
    method Open()
      modifies this
      ensures isOpen && records == old(records)
    {
      isOpen := true;
    }

    /** `table.append(record)`: the record goes after every record appended before it. */
    method Append(record: Record)
      requires isOpen
      modifies this
      ensures isOpen && records == old(records) + [record]
    {
      records := records + [record];
    }

    /** `table.close()` */
    method Close()
      modifies this
      ensures !isOpen && records == old(records)
    {
      isOpen := false;
    }
  }
}
