/** The page side of the portrait export (`export_to_pdf_portrait` in
    django_pdf_actions/actions/portrait.py): the values used when no settings
    record is active, which page elements are drawn, the page count, the rows
    each page shows, and the loop that emits one page after another. Drawing
    itself (canvas, table geometry, fonts) is left to the PDF library and is
    represented only by what each page holds. */
module PortraitPages {
  import opened Wrappers
  import opened Arithmetic
  import opened PortraitTable

  /** The fields of the active settings record that the portrait export reads. */
  datatype ExportSettings = ExportSettings(
    itemsPerPage: int,
    maxCharsPerLine: int,
    pageMarginMm: real,
    bodyFontSize: int,
    headerFontSize: int,
    showHeader: bool,
    showLogo: bool,
    showExportTime: bool,
    showPageNumbers: bool,
    rtlSupport: bool)

  /** The values the export works with once settings and defaults are merged. */
  datatype Layout = Layout(
    rowsPerPage: int,
    maxCharsPerLine: int,
    pageMarginMm: real,
    bodyFontSize: int,
    headerFontSize: int,
    rtl: bool)

  /** The optional elements drawn on every page besides the table. */
  datatype Element = Title | ExportTime | PageNumber | Logo

  /** One emitted page: the rows of its table (header row first), the optional
      elements drawn on it, and the page index (counted from 0) and page total
      handed to the page-number helper. */
  datatype DrawnPage = DrawnPage(rows: seq<Row>, elements: set<Element>, index: nat, total: nat)

  /** Why an export raises: `hasattr` is given a callable `list_display`
      entry (`TypeError`), or building the table fails in one of the modelled ways. */
  datatype ExportError = AttributeNameNotString | TableFailed(reason: TableError)

  /** The outcome of one export: the request fails with one of the errors
      above, or the table and its pages are produced. */
  datatype Export = Failed(error: ExportError) | Exported(table: seq<Row>, pages: seq<DrawnPage>)

  function Min(a: int, b: int): int { if a <= b then a else b }

  // ---------------------------------------------------------------------------
  // Settings and defaults

  /** Each value comes from the settings record when there is one, else from
      the portrait defaults. */
  function EffectiveLayout(settings: Option<ExportSettings>): (l: Layout)
    ensures settings.Some? ==>
      && l.rowsPerPage == settings.value.itemsPerPage
      && l.maxCharsPerLine == settings.value.maxCharsPerLine
      && l.pageMarginMm == settings.value.pageMarginMm
      && l.bodyFontSize == settings.value.bodyFontSize
      && l.headerFontSize == settings.value.headerFontSize
      && l.rtl == settings.value.rtlSupport
  {
    match settings
    case None => Layout(20, 40, 15.0, 7, 12, false)
    case Some(s) => Layout(s.itemsPerPage, s.maxCharsPerLine, s.pageMarginMm,
                           s.bodyFontSize, s.headerFontSize, s.rtlSupport)
  }

  /** Without settings the export uses 20 rows per page, 40 characters per
      line, a 15 mm margin, body font size 7, header font size 12, and no
      right-to-left shaping. */
  lemma DefaultsWithoutSettings()
    ensures EffectiveLayout(None) == Layout(20, 40, 15.0, 7, 12, false)
  {
  }

  /** An element is drawn when there are no settings or its flag is set; the
      logo in addition needs its file to exist. */
  function DrawnElements(settings: Option<ExportSettings>, logoExists: bool): (drawn: set<Element>)
    ensures Title in drawn <==> settings.None? || settings.value.showHeader
    ensures ExportTime in drawn <==> settings.None? || settings.value.showExportTime
    ensures PageNumber in drawn <==> settings.None? || settings.value.showPageNumbers
    ensures Logo in drawn <==> (settings.None? || settings.value.showLogo) && logoExists
  {
    var none := settings.None?;
    (if none || settings.value.showHeader then {Title} else {})
    + (if none || settings.value.showExportTime then {ExportTime} else {})
    + (if none || settings.value.showPageNumbers then {PageNumber} else {})
    + (if (none || settings.value.showLogo) && logoExists then {Logo} else {})
  }

  /** Without settings, title, export time and page number are always drawn,
      and the logo exactly when its file exists; a missing logo file is never
      drawn, whatever the settings say. */
  lemma DefaultElements(settings: Option<ExportSettings>, logoExists: bool)
    ensures DrawnElements(None, logoExists) ==
      {Title, ExportTime, PageNumber} + (if logoExists then {Logo} else {})
    ensures !logoExists ==> Logo !in DrawnElements(settings, logoExists)
  {
  }

  // ---------------------------------------------------------------------------
  // Page count

  /** `int((total_rows + ROWS_PER_PAGE - 1) / ROWS_PER_PAGE)`: the smallest page
      count whose pages of `rowsPerPage` rows cover `totalRows` rows. */
  function PageCount(totalRows: nat, rowsPerPage: int): (pages: nat)
    requires rowsPerPage > 0
    ensures pages * rowsPerPage >= totalRows
    ensures pages > 0 ==> (pages - 1) * rowsPerPage < totalRows
  {
    CeilBounds(totalRows, rowsPerPage);
    (totalRows + rowsPerPage - 1) / rowsPerPage
  }

  lemma CeilBounds(t: nat, n: int)
    requires n > 0
    ensures (t + n - 1) / n >= 0
    ensures (t + n - 1) / n * n >= t
    ensures (t + n - 1) / n > 0 ==> ((t + n - 1) / n - 1) * n < t
  {
    var q, r := (t + n - 1) / n, (t + n - 1) % n;
    assert t + n - 1 == q * n + r;
    assert (q - 1) * n == q * n - n;
  }

  /** No data rows give no pages at all. */
  lemma {:induction false} NoRowsNoPages(rowsPerPage: int)
    requires rowsPerPage > 0
    ensures PageCount(0, rowsPerPage) == 0
  {
    var p := PageCount(0, rowsPerPage);
    if p > 0 {
      MulMonotone(0, p - 1, rowsPerPage);
    }
  }

  // ---------------------------------------------------------------------------
  // Page slices

  /** Row `i` of `data` (the header row is row 0) is one of the data rows of
      page `page`: `data[start_row + 1:end_row]` covers it. */
  predicate OnPage(i: int, page: nat, rowsPerPage: int, rows: nat)
  {
    page * rowsPerPage + 1 <= i < Min((page + 1) * rowsPerPage, rows)
  }

  /** `data[0:1] + data[start_row + 1:end_row]`: the header row followed by the
      data rows from `start_row + 1` up to `end_row`. */
  function PageRows(data: seq<Row>, page: nat, rowsPerPage: int): (r: seq<Row>)
    requires |data| >= 1 && rowsPerPage > 0 && page < PageCount(|data| - 1, rowsPerPage)
    ensures |r| >= 1 && r[0] == data[0]
  {
    var startRow := page * rowsPerPage;
    var endRow := Min((page + 1) * rowsPerPage, |data|);
    assert (page + 1) * rowsPerPage == startRow + rowsPerPage;
    data[0..1] + data[startRow + 1..endRow]
  }

  /** A page is the header row followed by a contiguous block of data rows, at
      most `rowsPerPage - 1` of them, that starts right after row
      `page * rowsPerPage`. */
  lemma PageRowsBlock(data: seq<Row>, page: nat, rowsPerPage: int)
    requires |data| >= 1 && rowsPerPage > 0 && page < PageCount(|data| - 1, rowsPerPage)
    ensures var r := PageRows(data, page, rowsPerPage);
      && |r| - 1 <= rowsPerPage - 1
      && page * rowsPerPage + |r| <= |data|
      && r[1..] == data[page * rowsPerPage + 1 .. page * rowsPerPage + |r|]
  {
    var startRow := page * rowsPerPage;
    MulMonotone(page, PageCount(|data| - 1, rowsPerPage) - 1, rowsPerPage);
    assert startRow < |data| - 1;
    assert (page + 1) * rowsPerPage == startRow + rowsPerPage;
    var endRow := Min(startRow + rowsPerPage, |data|);
    var r := PageRows(data, page, rowsPerPage);
    assert r == data[0..1] + data[startRow + 1..endRow];
    assert |r| == endRow - startRow;
    assert r[1..] == data[startRow + 1..endRow];
  }

  /** The block of data rows on a page is exactly the rows that `OnPage` places
      there. */
  lemma PageRowsAreOnPage(data: seq<Row>, page: nat, rowsPerPage: int, i: int)
    requires |data| >= 1 && rowsPerPage > 0 && page < PageCount(|data| - 1, rowsPerPage)
    requires 1 <= i < |data|
    ensures OnPage(i, page, rowsPerPage, |data|) <==>
      page * rowsPerPage < i < page * rowsPerPage + |PageRows(data, page, rowsPerPage)|
  {
    var startRow := page * rowsPerPage;
    MulMonotone(page, PageCount(|data| - 1, rowsPerPage) - 1, rowsPerPage);
    assert (page + 1) * rowsPerPage == startRow + rowsPerPage;
    assert |PageRows(data, page, rowsPerPage)| == Min(startRow + rowsPerPage, |data|) - startRow;
  }

  /** Data row `i` is on page `page` exactly when `i` is not a multiple of
      `rowsPerPage` and `page` is `i / rowsPerPage`. */
  lemma RowPlacement(i: int, page: nat, rowsPerPage: int, rows: nat)
    requires rowsPerPage > 0 && 1 <= i < rows
    ensures OnPage(i, page, rowsPerPage, rows) <==> i % rowsPerPage != 0 && page == i / rowsPerPage
  {
    var q, r := i / rowsPerPage, i % rowsPerPage;
    assert (page + 1) * rowsPerPage == page * rowsPerPage + rowsPerPage;
    if OnPage(i, page, rowsPerPage, rows) {
      DivModUnique(i, rowsPerPage, page, i - page * rowsPerPage);
    }
    if r != 0 && page == q {
      assert i == page * rowsPerPage + r;
    }
  }

  /** Every data row whose index is not a multiple of `rowsPerPage` is shown,
      on a page the loop does reach. */
  lemma RowShown(i: int, rowsPerPage: int, rows: nat)
    requires rowsPerPage > 0 && 1 <= i < rows && i % rowsPerPage != 0
    ensures i / rowsPerPage < PageCount(rows - 1, rowsPerPage)
    ensures OnPage(i, i / rowsPerPage, rowsPerPage, rows)
  {
    RowPlacement(i, i / rowsPerPage, rowsPerPage, rows);
    var q, pages := i / rowsPerPage, PageCount(rows - 1, rowsPerPage);
    if q >= pages {
      MulMonotone(pages, q, rowsPerPage);
      assert false;
    }
  }

  /** The data rows at indices `rowsPerPage`, `2 * rowsPerPage`, ... of `data`
      are on no page: the export drops them. */
  lemma MultiplesAreLost(k: int, page: nat, rowsPerPage: int, rows: nat)
    requires rowsPerPage > 0 && k >= 1 && k * rowsPerPage < rows
    ensures !OnPage(k * rowsPerPage, page, rowsPerPage, rows)
  {
    MulMonotone(1, k, rowsPerPage);
    DivModUnique(k * rowsPerPage, rowsPerPage, k, 0);
    RowPlacement(k * rowsPerPage, page, rowsPerPage, rows);
  }

  /** Pages are disjoint and in increasing order: a row on an earlier page comes
      before every row on a later page, and no row is on two pages. */
  lemma PagesInOrder(i1: int, p1: nat, i2: int, p2: nat, rowsPerPage: int, rows: nat)
    requires rowsPerPage > 0
    requires OnPage(i1, p1, rowsPerPage, rows) && OnPage(i2, p2, rowsPerPage, rows)
    ensures p1 < p2 ==> i1 < i2
    ensures i1 == i2 ==> p1 == p2
  {
    if p1 < p2 {
      MulMonotone(p1 + 1, p2, rowsPerPage);
    }
    if i1 == i2 {
      RowPlacement(i1, p1, rowsPerPage, rows);
      RowPlacement(i2, p2, rowsPerPage, rows);
    }
  }

  /** 25 data rows at 10 per page give 3 pages, showing data rows 1-9, 11-19 and
      21-25; rows 10 and 20 are on no page. */
  lemma PaginationExample(data: seq<Row>)
    requires |data| == 26
    ensures PageCount(25, 10) == 3
    ensures PageRows(data, 0, 10) == data[0..1] + data[1..10]
    ensures PageRows(data, 1, 10) == data[0..1] + data[11..20]
    ensures PageRows(data, 2, 10) == data[0..1] + data[21..26]
  {
  }

  // ---------------------------------------------------------------------------
  // The page loop and the whole export

  /** `pages` is the document drawn from `data`: one page per page index, each
      with its slice of rows, the same drawn elements, and its index and the
      page total. */
  ghost predicate IsDocumentOf(pages: seq<DrawnPage>, data: seq<Row>, rowsPerPage: int, elements: set<Element>)
  {
    && |data| >= 1 && rowsPerPage > 0
    && |pages| == PageCount(|data| - 1, rowsPerPage)
    && forall p :: 0 <= p < |pages| ==>
         pages[p] == DrawnPage(PageRows(data, p, rowsPerPage), elements, p, |pages|)
  }

  /** The `for page in range(total_pages)` loop: each iteration draws the
      page's elements and its table slice, then starts a new page. */
  method RenderPages(data: seq<Row>, rowsPerPage: int, elements: set<Element>) returns (pages: seq<DrawnPage>)
    requires |data| >= 1 && rowsPerPage > 0
    ensures IsDocumentOf(pages, data, rowsPerPage, elements)
  {
    var totalRows := |data| - 1;
    var totalPages := PageCount(totalRows, rowsPerPage);
    pages := [];
    for page := 0 to totalPages
      invariant |pages| == page
      invariant forall p :: 0 <= p < page ==>
        pages[p] == DrawnPage(PageRows(data, p, rowsPerPage), elements, p, totalPages)
    {
      var startRow := page * rowsPerPage;
      var endRow := Min((page + 1) * rowsPerPage, |data|);
      assert (page + 1) * rowsPerPage == startRow + rowsPerPage;
      MulMonotone(page, totalPages - 1, rowsPerPage);
      var pageData := data[0..1] + data[startRow + 1..endRow];
      pages := pages + [DrawnPage(pageData, elements, page, totalPages)];
    }
  }

  /** `export_to_pdf_portrait`: merges settings with defaults, keeps the
      `list_display` columns that are model attributes, builds the table and
      draws its pages. Of the ways the source can raise, this model covers a
      callable `list_display` entry and the failures of building the table. */
  method ExportToPdfPortrait<Obj>(settings: Option<ExportSettings>, listDisplay: seq<DisplayEntry>, objs: seq<Obj>,
                                  model: ModelInfo<Obj>, shape: Text -> Text, logoExists: bool)
    returns (out: Export)
    requires settings.Some? ==> settings.value.itemsPerPage > 0
    ensures DisplayNames(listDisplay).None? <==> out == Failed(AttributeNameNotString)
    ensures var names := DisplayNames(listDisplay);
      var layout := EffectiveLayout(settings);
      var fmt := Formatting(layout.rtl, shape, layout.maxCharsPerLine);
      names.Some? ==>
        var columns := ValidFields(names.value, model.attributes);
        && (out.Failed? <==> HeaderFails(columns, model) || WrapFails(columns, objs, model, fmt))
        && (out.Failed? ==> out.error.TableFailed?)
        && (out.Failed? ==> (out.error.reason.FieldDoesNotExist? <==> HeaderFails(columns, model)))
        && (out.Exported? ==>
              && IsTableOf(out.table, columns, objs, model, fmt)
              && IsDocumentOf(out.pages, out.table, layout.rowsPerPage, DrawnElements(settings, logoExists)))
  {
    var layout := EffectiveLayout(settings);
    var elements := DrawnElements(settings, logoExists);
    var names := DisplayNames(listDisplay);
    if names.None? {
      // `hasattr(modeladmin.model, field)` raises TypeError
      return Failed(AttributeNameNotString);
    }
    var validFields := ValidFields(names.value, model.attributes);
    var data := BuildTable(validFields, objs, model, Formatting(layout.rtl, shape, layout.maxCharsPerLine));
    if data.Err? {
      return Failed(TableFailed(data.error));
    }
    var pages := RenderPages(data.value, layout.rowsPerPage, elements);
    out := Exported(data.value, pages);
  }
}
