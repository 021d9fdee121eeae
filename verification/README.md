# django-pdf-actions: portrait export and font setup, in Dafny

django-pdf-actions adds "export to PDF" actions to the Django admin. This
project models two parts of it.

**The portrait export action** (`django_pdf_actions/actions/portrait.py`).
- Each setting comes from the active settings record; without one, the
  portrait defaults apply (20 rows per page, 40 characters per line, a 15 mm
  margin, font sizes 7 and 12; title, export time and page number shown, and
  the logo shown when its file exists).
- The exported columns are the `list_display` names that are attributes of
  the model, in `list_display` order. A callable `list_display` entry makes
  this filter raise.
- The table is a header row of field labels, then one row per selected
  object.
- Each cell is the attribute's string, reshaped for right-to-left scripts when
  that is enabled. A value longer than the line width is cut into fixed-width
  pieces joined by `<br/>`.
- The table is spread over `ceil(rows / items_per_page)` pages. Every page
  repeats the header row. Because of the row slice described below, a page
  shows at most `items_per_page - 1` data rows.
- Every page carries the title, export time and page number whose flags are
  on. It carries the logo when its flag is on and the logo file exists.

**The `setup_fonts` management command**
(`django_pdf_actions/management/commands/setup_fonts.py`).
- The command installs DejaVu Sans, plus an optional custom font given by
  `--font-url` and `--font-name`, into the fonts directory.
- A font whose file already exists is skipped.
- A download is either a plain font file, which is moved into place, or a zip
  archive, from which one `.ttf` member is extracted.
- A failure is reported and the next font is processed; the command always
  ends with its completion message.

The model is split into these modules.

| module | file | content |
|---|---|---|
| `Wrappers` | `wrappers.dfy` | `Option` and `Result` |
| `Sequences` | `sequences.dfy` | list comprehension with a filter; `next()` over a generator; `str.join`; `endswith`; the substring test `in` |
| `Arithmetic` | `arithmetic.dfy` | facts about integer division |
| `PortraitTable` | `portrait_table.dfy` | `reshape_to_arabic` and the column filter |
| `PortraitPages` | `portrait_pages.dfy` | settings and defaults, drawn elements, page count and page slices, the page loop, `export_to_pdf_portrait` |
| `SetupFonts` | `setup_fonts.dfy` | `handle` and `download_and_process_font` |

Some parts are stateful and are modelled as classes:
- the fonts directory is `FontsDirectory`, holding the set of its file names;
- the command is `SetupFontsCommand`, holding what it has written to standard
  output as a sequence of `Event`s.

Their loops are proved against the functions `Run` and `CommandLog`, which
state what the whole run does.

The outside world enters only as parameters:
- Model introspection is a `ModelInfo` value. It holds the attribute and field
  names, the field labels, `capfirst`, and `str(getattr(obj, name))`.
- Right-to-left shaping (`arabic_reshaper.reshape` followed by `get_display`)
  is an opaque function `shape`.
- Whether the logo file exists is a boolean `logoExists`.
- The network is an oracle `fetch` from a URL to what the download produced.

### Quirks of the code

Some behaviour of the code differs from what a reader would expect. The model
follows the code, and each quirk is proved as a property of the model.

- **Empty export.** A reader would expect one page holding only the header
  row. With no selected objects, `int((0 + R - 1) / R)` is 0, so the document
  has no pages at all (`NoRowsNoPages`).
- **Row slice.** A reader would expect pages of R data rows each, where R is
  `items_per_page`. Instead page `p` shows `data[p*R + 1 : min((p+1)*R, len(data))]` after
  the header row, where `data[0]` is the header row. The effects:
  - a page holds at most R - 1 data rows (`PageRowsBlock`);
  - the data rows at indices R, 2R, … of `data` appear on no page
    (`MultiplesAreLost`);
  - every other data row appears on exactly one page, `i / R`
    (`RowPlacement`, `RowShown`, `PagesInOrder`);
  - for example, 25 rows at 10 per page give 3 pages showing rows 1-9, 11-19
    and 21-25 (`PaginationExample`).
- **Header labels.** A column that is a model attribute but not a model field
  (a property or a method) is kept by the column filter. `_meta.get_field`
  then raises for it, so the whole export fails (`BuildTable`,
  `ValidFieldHeaders`).
- **Line width.** A line width of 0 makes `range` raise when some cell is
  non-empty. A negative width turns every cell into the empty string, because
  the range is empty (`Wrap`, `WrapFailsIff`).
- **Custom font names.** A custom font without `--font-name` is named after
  the URL's last path segment with `.ttf` appended. So `Roboto.zip` becomes
  `Roboto.zip.ttf` (`CustomFontNameExamples`).
- **Member choice.** For DejaVu Sans, an archive member containing
  `DejaVuSans.ttf` is required. When there is none, the bare `next()` raises
  StopIteration, which the command reports as a failure of that font
  (`SelectMember`).

## Model

| member | source | states |
|---|---|---|
| PortraitTable.DisplayNames | django_pdf_actions/actions/portrait.py:109 | the filter raises (`hasattr` with a non-string name) exactly when some `list_display` entry is a callable; otherwise it reads the entries' names, one per entry, in order |
| PortraitTable.ValidFields | django_pdf_actions/actions/portrait.py:109 | every exported column is a `list_display` name that is a model attribute, and every such name is exported |
| PortraitTable.ValidFieldsInOrder | django_pdf_actions/actions/portrait.py:109 | the exported columns are `list_display` read at increasing positions, exactly the positions holding a model attribute, so order is kept |
| PortraitTable.ValidFieldHeaders | django_pdf_actions/actions/portrait.py:36-42 | for the exported columns, building the headers fails exactly when some `list_display` name is an attribute but not a field; otherwise each header is the field's label, shaped |
| PortraitTable.Humanize | django_pdf_actions/actions/portrait.py:42 | `replace('_', ' ')` keeps the length, turns every underscore into a space and keeps every other character |
| PortraitTable.HeaderText | django_pdf_actions/actions/portrait.py:36-47 | a header fails exactly for an attribute that is not a field; an attribute's header is its field label, any other column's is its name with underscores as spaces, capitalised; shaped only with right-to-left support |
| PortraitTable.Chunks | django_pdf_actions/actions/portrait.py:65 | the comprehension yields no piece exactly for the empty value, and every piece has 1 to n characters |
| PortraitTable.ChunkSizes | django_pdf_actions/actions/portrait.py:65 | the comprehension yields ceil(len / n) pieces; all but the last have n characters and the last has 1 to n |
| PortraitTable.ChunkAt | django_pdf_actions/actions/portrait.py:65 | piece k is the slice `value[k*n : k*n + n]`, clipped at the end of the value |
| PortraitTable.ChunksConcat | django_pdf_actions/actions/portrait.py:65 | the pieces written back to back give back the value |
| PortraitTable.Wrap | django_pdf_actions/actions/portrait.py:63-66 | a wrapped cell fails exactly when the width is 0 and the value is non-empty; a value that fits is unchanged; a negative width gives the empty string |
| PortraitTable.WrapRoundTrip | django_pdf_actions/actions/portrait.py:64-66 | for a positive width the cell is its lines joined by `<br/>`; the lines concatenate back to the value; no line is longer than the width; all but the last are exactly the width |
| PortraitTable.WrapExample | django_pdf_actions/actions/portrait.py:64-66 | a 120-character value at width 50 becomes pieces of 50, 50 and 20 characters with two `<br/>` markers |
| PortraitTable.WrapFailsIff | django_pdf_actions/actions/portrait.py:64-65 | building the body fails exactly when the width is 0 and some shaped cell value is non-empty |
| PortraitTable.Cell | django_pdf_actions/actions/portrait.py:56-66 | a body cell fails exactly when the width is 0 and the shaped value is non-empty; without right-to-left support a value that fits is kept as it is; for a positive width the cell is the shaped value's lines joined by `<br/>` |
| PortraitTable.BuildHeader | django_pdf_actions/actions/portrait.py:34-49 | the header loop fails exactly when some column is an attribute but not a field, reporting FieldDoesNotExist for the first such column; otherwise one header per column, each that column's header text |
| PortraitTable.BuildRow | django_pdf_actions/actions/portrait.py:54-68 | one object's row fails exactly when one of its cells cannot be built; otherwise one cell per column, each that column's cell |
| PortraitTable.BuildTable | django_pdf_actions/actions/portrait.py:25-69 | fails exactly on the modelled failures: a header for a non-field attribute, or a cell under a zero line width; a header failure is reported as FieldDoesNotExist for the first such column; otherwise returns the header row and one row per object, in queryset order, each cell the object's attribute text shaped and wrapped |
| PortraitPages.EffectiveLayout | django_pdf_actions/actions/portrait.py:91-93 | with a settings record, rows per page, line width, margin, font sizes and right-to-left flag all come from it |
| PortraitPages.DefaultsWithoutSettings | django_pdf_actions/actions/portrait.py:91-93 | without settings: 20 rows per page, 40 characters per line, 15 mm margin, font sizes 7 and 12, no right-to-left shaping |
| PortraitPages.DrawnElements | django_pdf_actions/actions/portrait.py:126-155 | title, export time and page number are drawn exactly when there are no settings or their flag is set; the logo in addition needs its file to exist |
| PortraitPages.DefaultElements | django_pdf_actions/actions/portrait.py:154 | without settings every element is drawn, the logo when its file exists; a missing logo file is never drawn |
| PortraitPages.PageCount | django_pdf_actions/actions/portrait.py:117-118 | the page count is the least count whose pages of R rows cover all data rows |
| PortraitPages.NoRowsNoPages | django_pdf_actions/actions/portrait.py:117-118 | zero data rows give zero pages |
| PortraitPages.PageRows | django_pdf_actions/actions/portrait.py:133-135 | every page starts with the header row |
| PortraitPages.PageRowsBlock | django_pdf_actions/actions/portrait.py:133-135 | after the header, a page holds a contiguous block of at most R - 1 data rows, starting right after row page*R |
| PortraitPages.PageRowsAreOnPage | django_pdf_actions/actions/portrait.py:133-135 | the block of rows on a page is exactly the rows `OnPage` assigns to it |
| PortraitPages.RowPlacement | django_pdf_actions/actions/portrait.py:133-135 | data row i is on page p exactly when i is not a multiple of R and p = i / R |
| PortraitPages.RowShown | django_pdf_actions/actions/portrait.py:126-135 | every data row whose index is not a multiple of R is shown on a page the loop reaches |
| PortraitPages.MultiplesAreLost | django_pdf_actions/actions/portrait.py:133-135 | data rows at indices R, 2R, … are on no page |
| PortraitPages.PagesInOrder | django_pdf_actions/actions/portrait.py:126-135 | pages are disjoint and in increasing row order |
| PortraitPages.PaginationExample | django_pdf_actions/actions/portrait.py:117-135 | 25 data rows at 10 per page give 3 pages showing rows 1-9, 11-19 and 21-25 |
| PortraitPages.RenderPages | django_pdf_actions/actions/portrait.py:126-157 | one page per page index, each with its row slice, the same drawn elements, the 0-based page index passed to the page-number helper, and the page total |
| PortraitPages.ExportToPdfPortrait | django_pdf_actions/actions/portrait.py:72-163 | fails with a TypeError exactly when `list_display` holds a callable; otherwise fails exactly on the modelled table failures, reporting FieldDoesNotExist exactly for a header failure; otherwise the table is that of the valid fields under the merged settings, and the pages are its document |
| SetupFonts.Basename | django_pdf_actions/management/commands/setup_fonts.py:74 | the basename holds no `/`, is a suffix of the path, and is preceded by a `/` when shorter than the path |
| SetupFonts.BasenameOfSegment | django_pdf_actions/management/commands/setup_fonts.py:74 | the basename of `dir + "/" + file` is `file` when `file` holds no `/` |
| SetupFonts.WithTtfSuffix | django_pdf_actions/management/commands/setup_fonts.py:75-80 | the result ends in `.ttf`; a name already ending in `.ttf` is unchanged; any other name gets `.ttf` appended |
| SetupFonts.WithTtfSuffixIdempotent | django_pdf_actions/management/commands/setup_fonts.py:75-80 | normalising a font name twice is normalising it once |
| SetupFonts.CustomFontName | django_pdf_actions/management/commands/setup_fonts.py:72-80 | the custom font's name ends in `.ttf` and comes from `--font-name` when that is given, else from the URL's basename |
| SetupFonts.CustomFontNameExamples | django_pdf_actions/management/commands/setup_fonts.py:72-80 | `…/Roboto.zip` without a name gives `Roboto.zip.ttf`; names `Amiri` and `Amiri.ttf` both give `Amiri.ttf` |
| SetupFonts.FontList | django_pdf_actions/management/commands/setup_fonts.py:64-85 | DejaVu Sans comes first; a second, custom font is present exactly when `--font-url` is given, with that URL and the name `CustomFontName` gives it |
| SetupFonts.TtfMembers | django_pdf_actions/management/commands/setup_fonts.py:40 | the candidates are archive members ending in `.ttf`, and every such member is a candidate |
| SetupFonts.TtfMembersInArchiveOrder | django_pdf_actions/management/commands/setup_fonts.py:40 | the candidates keep archive order: they are exactly the `.ttf` members, read at increasing positions |
| SetupFonts.SelectMember | django_pdf_actions/management/commands/setup_fonts.py:44-49 | the chosen member is a candidate; it is the first candidate containing the font name; selection fails, with NoMatchingMember, exactly for DejaVu Sans with no matching candidate; any other font with no match falls back to the first candidate |
| SetupFonts.ProcessFont | django_pdf_actions/management/commands/setup_fonts.py:27-56 | a failed download is a DownloadFailed error; a plain file is moved; an archive without `.ttf` members is NoTtfInArchive; an extracted member is the `.ttf` member `SelectMember` chooses; an archive with `.ttf` candidates succeeds exactly when `SelectMember` does, and then extracts the member it chooses; so a non-DejaVu font with candidates always succeeds, DejaVu Sans succeeds with a member containing `DejaVuSans.ttf` whenever one exists, and fails with NoMatchingMember otherwise |
| SetupFonts.DejaVuArchiveExample | django_pdf_actions/management/commands/setup_fonts.py:40-49 | from an archive with a licence, `a.ttf` and `ttf/DejaVuSans.ttf`, DejaVu Sans extracts `ttf/DejaVuSans.ttf`, not the first `.ttf` |
| SetupFonts.GivenTruthiness | django_pdf_actions/management/commands/setup_fonts.py:72-73 | an option counts as given exactly when it is a non-empty string; a missing option and an empty string do not |
| SetupFonts.Step | django_pdf_actions/management/commands/setup_fonts.py:93-114 | a font is skipped exactly when its file exists; otherwise its outcome is installed or failed as processing its download says |
| SetupFonts.FontEvents | django_pdf_actions/management/commands/setup_fonts.py:95-114 | one font writes 1 message when skipped, 2 when installed and 3 when failed, never the completion message; the first is the skip message exactly when the font is skipped, else the download message; an installed font writes its success message; a failed font writes the error message carrying its error and ends with the manual-download hint, which appears exactly when the font failed |
| SetupFonts.LoopLog | django_pdf_actions/management/commands/setup_fonts.py:90-114 | the loop writes at least one and at most three messages per font |
| SetupFonts.CommandLog | django_pdf_actions/management/commands/setup_fonts.py:86-116 | the output ends with the completion message; with a custom font it starts with the announcement, and every font's messages of the loop come between that and the completion message; without one it is the loop's messages followed by the completion message |
| SetupFonts.Run | django_pdf_actions/management/commands/setup_fonts.py:90-114 | the loop yields one outcome per font |
| SetupFonts.RunAppend | django_pdf_actions/management/commands/setup_fonts.py:90-114 | running over `a + b` is running over `a`, then over `b` from the directory `a` left |
| SetupFonts.RunAt | django_pdf_actions/management/commands/setup_fonts.py:90-98 | font i is skipped exactly when its file exists after the fonts before it; otherwise its outcome is its own download's |
| SetupFonts.FailureIsolated | django_pdf_actions/management/commands/setup_fonts.py:100-114 | a failing font leaves the directory unchanged, so the other fonts have the same outcomes as if it were not listed |
| SetupFonts.FilesGrow | django_pdf_actions/management/commands/setup_fonts.py:90-114 | files are never removed: the directory after some fonts is contained in the directory after more fonts |
| SetupFonts.PresentAfterStep | django_pdf_actions/management/commands/setup_fonts.py:93-106 | a font that did not fail has its file in the directory right after its own step |
| SetupFonts.SameNameSkipped | django_pdf_actions/management/commands/setup_fonts.py:90-98 | a later font with the name of an earlier font that did not fail is skipped |
| SetupFonts.RunFiles | django_pdf_actions/management/commands/setup_fonts.py:90-114 | the directory only grows; every installed font's file is there at the end; every new file belongs to an installed font |
| SetupFonts.AllPresentNoDownload | django_pdf_actions/management/commands/setup_fonts.py:93-98 | when every file already exists, every font is skipped and the downloads are never consulted |
| SetupFonts.CompletionOnceAtEnd | django_pdf_actions/management/commands/setup_fonts.py:116 | the completion message is written exactly once, as the last message |
| SetupFonts.LoopLogAt | django_pdf_actions/management/commands/setup_fonts.py:90-114 | each font's messages form one block, between those of the fonts before and after it |
| SetupFonts.FontsDirectory.Store | django_pdf_actions/management/commands/setup_fonts.py:52-56 | writing or moving a font file adds exactly its name to the directory |
| SetupFonts.SetupFontsCommand.Write | django_pdf_actions/management/commands/setup_fonts.py:86-88 | a write appends exactly one message to standard output |
| SetupFonts.SetupFontsCommand.DownloadAndProcessFont | django_pdf_actions/management/commands/setup_fonts.py:27-56 | the result is `ProcessFont` of the download; the font's file is added exactly when that succeeds, else the directory is unchanged |
| SetupFonts.SetupFontsCommand.ListFonts | django_pdf_actions/management/commands/setup_fonts.py:64-88 | the list built is `FontList`; the custom font is announced exactly when it is added |
| SetupFonts.SetupFontsCommand.ProcessListedFont | django_pdf_actions/management/commands/setup_fonts.py:91-114 | one font: the directory and the messages change as `Step` dictates (skip message, or download then success, or download then error and hint) |
| SetupFonts.SetupFontsCommand.ProcessFonts | django_pdf_actions/management/commands/setup_fonts.py:90-114 | after the loop, the directory is `Run`'s and the messages are each font's block in list order |
| SetupFonts.SetupFontsCommand.Handle | django_pdf_actions/management/commands/setup_fonts.py:58-116 | the final directory is `Run` over `FontList`, and the output is the announcement, each font's messages, then the completion message |

## Left out

- Drawing and geometry are not modelled:
  - the reportlab canvas and its `Paragraph` and `Table` objects;
  - page size, millimetre margins, column widths, table placement, fonts and colours;
  - the helpers imported from `django_pdf_actions/actions/utils.py`, which is not part of this model.

  A page is represented only by its row slice, the elements drawn on it, and
  the page index and total handed to the page-number helper. How that helper
  prints the index is not part of this model.
- PortraitPages.ExportToPdfPortrait, PortraitTable.BuildTable: only some
  failures of the export are modelled: a callable `list_display`
  entry (TypeError), a model attribute that is not a field
  (FieldDoesNotExist), and a zero `range` step (ValueError). Other raises in
  the source are not modelled:
  - reportlab's `Paragraph` (lines 49 and 67) parses each header and cell as
    markup, and can raise on an unknown tag or on a tag the fixed-width wrap
    cuts in two;
  - `str(getattr(obj, column))` (line 56) raises when a property raises, or
    for a missing reverse one-to-one relation; the model's `attrText` always
    yields a text;
  - `hex_to_rgb`, `setup_font`, `get_logo_path` and `calculate_column_widths`
    (lines 96-99 and 115) can raise.
- Text shaping is not modelled. `arabic_reshaper` and `bidi` are one opaque
  function.
- Lazy translation strings are not modelled. The source skips shaping a
  header that is not a plain `str` (line 45); the model shapes every header
  when right-to-left support is on.
- Django model introspection is opaque: `hasattr`, `_meta.get_field`,
  `verbose_name`, `capfirst` and `str(getattr(...))`.
- The response object is not modelled: `HttpResponse`, the file name with its
  timestamp, and the byte buffer.
- PortraitPages.PageCount: computed with exact integer division. The source
  uses float division then `int()`. The two agree unless the row count is
  large enough for float rounding to matter, far beyond any export.
- PortraitPages.ExportToPdfPortrait: requires `items_per_page > 0`. The
  settings model enforces this. With 0 the source raises ZeroDivisionError;
  with a negative value it produces a meaningless page count.
- `setup_fonts` file-system details are not modelled:
  - `os.makedirs`, the path join and the temporary file, which is never
    deleted;
  - a file partly written when copying raises;
  - a `--font-name` that holds `/` and so names a file in another directory.

  A file name is simply a key in the set of files.
- The wording of messages and Django's output styles are not modelled. Each
  message is an `Event` carrying the values it mentions.
- Archive member names are compared as given. Whether a download is a zip is
  decided by the oracle.
- The landscape export action, `scripts/check_version_bump.py` and
  `module.py` are not part of this model.
