/** The admin dashboard's view state and the effect of its event handlers on
    it. The component keeps the search text and level selector in its own
    state; two paginated table instances keep a page index and a page size,
    of which the model tracks both page indexes but only the filtered
    table's page size. Rendering is not modelled: what a render
    reads is given by `FilteredData` and `CsvRows`. */
module Dashboard {
  import opened Records
  import opened CsvExport

  /** The rows-per-page choices the paginator offers. */
  const RowsPerPageOptions: seq<nat> := [10, 25, 50]

  /** The filtered table's page size before any change. */
  const InitialFilteredPageSize: nat := 25

  class AdminDashboard {
    /** The embedded dataset; it never changes. */
    const data: seq<Record>
    /** The search box's text. */
    var searchText: string
    /** The level selector's value; the empty string is "All". */
    var filterLevel: string
    /** The page index of the table over the unfiltered data. */
    var pageIndex: nat
    /** The page index of the table over the filtered data. */
    var filteredPageIndex: nat
    /** The page size of the table over the filtered data. */
    var filteredPageSize: nat

    /** The filtered table's page size is always one the paginator offers,
        and the unfiltered table never leaves its first page: the only call
        that moves it is `gotoPage(0)`. */
    ghost predicate Valid()
      reads this
    {
      filteredPageSize in RowsPerPageOptions && pageIndex == 0
    }

    /** The records the filtered table shows, recomputed from the current
        search text and level: exactly the records of the data that match. */
    function FilteredData(): (r: seq<Record>)
      reads this
      ensures |r| <= |data|
      ensures forall x :: x in r <==> x in data && Matches(x, searchText, filterLevel)
    {
      FilterMembership(data, searchText, filterLevel);
      Filter(data, searchText, filterLevel)
    }

    /** The rows the download link exports: the projection of exactly the
        records the filtered table holds, one row per record. */
    function CsvRows(): (rows: seq<CsvRow>)
      reads this
      ensures rows == ExportRows(FilteredData())
      ensures |rows| == |FilteredData()|
    {
      CsvData(data, searchText, filterLevel)
    }

    /** The state on first render: empty search, level "All", both tables on
        their first page, the filtered table showing 25 rows per page. With
        these criteria every record is shown. */
    constructor (data: seq<Record>)
      ensures this.data == data
      ensures searchText == "" && filterLevel == AllLevels
      ensures pageIndex == 0 && filteredPageIndex == 0
      ensures filteredPageSize == InitialFilteredPageSize
      ensures Valid()
      ensures FilteredData() == data
      ensures CsvRows() == ExportRows(data)
    {
      this.data := data;
      searchText := "";
      filterLevel := AllLevels;
      pageIndex := 0;
      filteredPageIndex := 0;
      filteredPageSize := InitialFilteredPageSize;
      new;
      FilterInitialIsIdentity(data);
    }

    /** `handleFilterChange`: sets the level and sends the UNFILTERED table
        to its first page. The filtered table's page index and size and the
        search text are left as they were. */
    method HandleFilterChange(value: string)
      requires Valid()
      modifies this
      ensures Valid()
      ensures filterLevel == value && pageIndex == 0
      ensures searchText == old(searchText)
      ensures filteredPageIndex == old(filteredPageIndex)
      ensures filteredPageSize == old(filteredPageSize)
      ensures FilteredData() == Filter(data, old(searchText), value)
    {
      filterLevel := value;
      pageIndex := 0;
    }

    /** `handleChangePage`: moves the filtered table to the chosen page and
        changes nothing else; in particular the export is the same. */
    method HandleChangePage(newPage: nat)
      requires Valid()
      modifies this
      ensures Valid()
      ensures filteredPageIndex == newPage
      ensures searchText == old(searchText) && filterLevel == old(filterLevel)
      ensures pageIndex == old(pageIndex) && filteredPageSize == old(filteredPageSize)
      ensures FilteredData() == old(FilteredData()) && CsvRows() == old(CsvRows())
    {
      filteredPageIndex := newPage;
    }

    /** `handleChangeRowsPerPage`: sets the filtered table's page size to the
        chosen option, then sends it to its first page. The criteria, the
        unfiltered table and the export are unchanged. */
    method HandleChangeRowsPerPage(value: nat)
      requires Valid()
      requires value in RowsPerPageOptions
      modifies this
      ensures Valid()
      ensures filteredPageSize == value && filteredPageIndex == 0
      ensures searchText == old(searchText) && filterLevel == old(filterLevel)
      ensures pageIndex == old(pageIndex)
      ensures FilteredData() == old(FilteredData()) && CsvRows() == old(CsvRows())
    {
      filteredPageSize := value;
      filteredPageIndex := 0;
    }

    /** The search box's `onChange`: sets the search text and nothing else;
        no page index is reset. */
    method HandleSearchChange(value: string)
      requires Valid()
      modifies this
      ensures Valid()
      ensures searchText == value
      ensures filterLevel == old(filterLevel)
      ensures pageIndex == old(pageIndex)
      ensures filteredPageIndex == old(filteredPageIndex)
      ensures filteredPageSize == old(filteredPageSize)
      ensures FilteredData() == Filter(data, value, old(filterLevel))
    {
      searchText := value;
    }
  }
}
