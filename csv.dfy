/** The rows handed to the CSV export (`csvData` in AdminDashboard.js): one
    object per filtered record, with six keys. Turning these rows into CSV
    text is the export component's business and is not modelled. */
module CsvExport {
  import opened Records

  /** One export row; the fields are the keys 'Serial Number', 'Name',
      'Phone Number', 'Email', 'Level' and 'Profession', in that order. */
  datatype CsvRow = CsvRow(
    serialNumber: string,
    name: string,
    phoneNumber: string,
    email: string,
    level: string,
    profession: string)

  /** The export row of one record. As written, 'Serial Number' holds the
      record's name, not an ordinal. */
  function ExportRow(r: Record): CsvRow
  {
    CsvRow(r.firstName, r.firstName, r.phoneNumber, r.email, r.level, r.profession)
  }

  /** `records.map(ExportRow)`: one row per record, in the same order, each
      copying the record's fields under the matching keys. */
  function ExportRows(records: seq<Record>): (rows: seq<CsvRow>)
    ensures |rows| == |records|
    ensures forall k :: 0 <= k < |records| ==>
      rows[k].serialNumber == records[k].firstName &&
      rows[k].name == records[k].firstName &&
      rows[k].phoneNumber == records[k].phoneNumber &&
      rows[k].email == records[k].email &&
      rows[k].level == records[k].level &&
      rows[k].profession == records[k].profession
  {
    if records == [] then [] else [ExportRow(records[0])] + ExportRows(records[1..])
  }

  /** The rows exported for the given data and criteria: the whole filtered
      set. Paging does not enter into it. */
  function CsvData(data: seq<Record>, searchText: string, filterLevel: string): (rows: seq<CsvRow>)
    ensures |rows| == |Filter(data, searchText, filterLevel)|
  {
    ExportRows(Filter(data, searchText, filterLevel))
  }

  /** Every exported row is the row of some record of the data that matches
      the criteria. */
  lemma ExportSound(data: seq<Record>, searchText: string, filterLevel: string, row: CsvRow)
    requires row in CsvData(data, searchText, filterLevel)
    ensures exists x :: x in data && Matches(x, searchText, filterLevel) && row == ExportRow(x)
  {
    var f := Filter(data, searchText, filterLevel);
    var k :| 0 <= k < |f| && CsvData(data, searchText, filterLevel)[k] == row;
    assert f[k] in f;
    assert row == ExportRow(f[k]);
  }

  /** Every record of the data that matches the criteria has its row in the
      export, wherever the paginator stands. */
  lemma ExportComplete(data: seq<Record>, searchText: string, filterLevel: string, x: Record)
    requires x in data && Matches(x, searchText, filterLevel)
    ensures ExportRow(x) in CsvData(data, searchText, filterLevel)
  {
    var f := Filter(data, searchText, filterLevel);
    FilterMembership(data, searchText, filterLevel);
    var k :| 0 <= k < |f| && f[k] == x;
    assert CsvData(data, searchText, filterLevel)[k] == ExportRow(x);
  }

  /** The 'Serial Number' column repeats the 'Name' column in every exported
      row. */
  lemma SerialNumberRepeatsName(data: seq<Record>, searchText: string, filterLevel: string)
    ensures forall row :: row in CsvData(data, searchText, filterLevel) ==> row.serialNumber == row.name
  {
    var rows := CsvData(data, searchText, filterLevel);
    forall row | row in rows ensures row.serialNumber == row.name {
      var k :| 0 <= k < |rows| && rows[k] == row;
    }
  }

  /** A level that no record has exports no rows; what the file then holds
      is up to the export component, which is not modelled. */
  lemma ExportAbsentLevel(data: seq<Record>, searchText: string, filterLevel: string)
    requires filterLevel != AllLevels
    requires forall x :: x in data ==> x.level != filterLevel
    ensures CsvData(data, searchText, filterLevel) == []
  {
    FilterAbsentLevel(data, searchText, filterLevel);
  }

  /** In the initial state every record is exported, in data order. */
  lemma {:induction false} ExportInitial(data: seq<Record>)
    ensures CsvData(data, "", AllLevels) == ExportRows(data)
  {
    FilterInitialIsIdentity(data);
  }
}
