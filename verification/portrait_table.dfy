/** The table that the portrait export draws: which `list_display` columns are
    exported, the header row, and one row of cell texts per selected object,
    each cell optionally reshaped for right-to-left scripts and then cut into
    fixed-width lines joined by `<br/>` (`reshape_to_arabic` in
    django_pdf_actions/actions/portrait.py). */
module PortraitTable {
  import opened Wrappers
  import opened Sequences
  import opened Arithmetic

  type Text = seq<char>
  type Column = Text
  type Row = seq<Text>

  /** The line-break marker that joins the pieces of a wrapped cell. */
  const LineBreak: Text := "<br/>"

  /** What the export reads from the Django model behind the queryset. All of it
      is model introspection and stays opaque. */
  datatype ModelInfo<!Obj> = ModelInfo(
    attributes: set<Column>,          // the names `n` with `hasattr(model, n)`
    fields: set<Column>,              // the names `_meta.get_field` resolves; it raises for any other
    fieldHeader: Column -> Text,      // `capfirst(verbose_name)`, or `capfirst(n)` for a field without one
    capfirst: Text -> Text,           // Django's `capfirst`
    attrText: (Obj, Column) -> Text)  // `str(getattr(obj, n))`

  /** How cell and header texts are prepared: `rtl` is `pdf_settings and
      pdf_settings.rtl_support`, `shape` stands for `get_display(arabic_reshaper.reshape(.))`. */
  datatype Formatting = Formatting(rtl: bool, shape: Text -> Text, maxCharsPerLine: int)

  // ---------------------------------------------------------------------------
  // Column selection

  /** One entry of the admin's `list_display`: a name, or a callable. */
  datatype DisplayEntry = Name(name: Column) | Callable

  /** The names of `list_display`. `hasattr` raises `TypeError` for an
      attribute name that is not a string, so the column filter fails as soon
      as some entry is a callable (None here). */
  function DisplayNames(listDisplay: seq<DisplayEntry>): (r: Option<seq<Column>>)
    ensures r.None? <==> exists i | 0 <= i < |listDisplay| :: listDisplay[i].Callable?
    ensures r.Some? ==> |r.value| == |listDisplay|
    ensures r.Some? ==> forall i :: 0 <= i < |r.value| ==> listDisplay[i] == Name(r.value[i])
  {
    if listDisplay == [] then Some([])
    else match listDisplay[0]
      case Callable => None
      case Name(n) =>
        match DisplayNames(listDisplay[1..])
        case None => None
        case Some(rest) => Some([n] + rest)
  }

  /** The exported columns: the `list_display` names that are attributes of the
      model, in `list_display` order. */
  function ValidFields(listDisplay: seq<Column>, attributes: set<Column>): (r: seq<Column>)
    ensures forall k :: 0 <= k < |r| ==> r[k] in listDisplay && r[k] in attributes
    ensures forall i :: 0 <= i < |listDisplay| && listDisplay[i] in attributes ==> listDisplay[i] in r
  {
    Filter(listDisplay, (c: Column) => c in attributes)
  }

  /** The exported columns are `list_display` read at an increasing list of
      positions, namely exactly the positions holding a model attribute. */
  lemma ValidFieldsInOrder(listDisplay: seq<Column>, attributes: set<Column>)
    ensures var keep := (c: Column) => c in attributes;
      var idx := KeptPositions(listDisplay, keep);
      var r := ValidFields(listDisplay, attributes);
      && |idx| == |r|
      && (forall k :: 0 <= k < |idx| ==> idx[k] < |listDisplay| && r[k] == listDisplay[idx[k]])
      && (forall k, l :: 0 <= k < l < |idx| ==> idx[k] < idx[l])
      && (forall i :: 0 <= i < |listDisplay| ==> (i in idx <==> listDisplay[i] in attributes))
  {
    FilterKeepsOrder(listDisplay, (c: Column) => c in attributes);
  }

  // ---------------------------------------------------------------------------
  // Header row

  /** `column.replace('_', ' ')`. */
  function Humanize(column: Column): (r: Text)
    ensures |r| == |column| && '_' !in r
    ensures forall i :: 0 <= i < |column| && column[i] != '_' ==> r[i] == column[i]
    ensures forall i :: 0 <= i < |column| && column[i] == '_' ==> r[i] == ' '
  {
    seq(|column|, i requires 0 <= i < |column| => if column[i] == '_' then ' ' else column[i])
  }

  /** The text applied to a cell or header before wrapping: reshaped and
      reordered for display when right-to-left support is on, else unchanged. */
  function Shaped(t: Text, fmt: Formatting): Text
  {
    if fmt.rtl then fmt.shape(t) else t
  }

  /** The header label of one column: the model field's label for a model
      attribute, else the column name with underscores turned into spaces and
      its first letter capitalised; shaped when right-to-left support is on.
      None when the column is a model attribute but not a model field, where
      `_meta.get_field` raises `FieldDoesNotExist`. */
  function HeaderText<Obj>(column: Column, model: ModelInfo<Obj>, fmt: Formatting): (r: Option<Text>)
    ensures r.None? <==> NotAField(column, model)
    ensures r.Some? && column in model.attributes ==> r.value == Shaped(model.fieldHeader(column), fmt)
    ensures column !in model.attributes ==> r == Some(Shaped(model.capfirst(Humanize(column)), fmt))
    ensures !fmt.rtl && r.Some? ==> r.value in {model.fieldHeader(column), model.capfirst(Humanize(column))}
  {
    if NotAField(column, model) then None
    else if column in model.attributes then Some(Shaped(model.fieldHeader(column), fmt))
    else Some(Shaped(model.capfirst(Humanize(column)), fmt))
  }

  /** The column is an attribute of the model (a property or a method, say)
      without being one of its fields. */
  predicate NotAField<Obj>(column: Column, model: ModelInfo<Obj>)
  {
    column in model.attributes && column !in model.fields
  }

  /** Some column's header cannot be built, so building the table raises. */
  predicate HeaderFails<Obj>(columns: seq<Column>, model: ModelInfo<Obj>)
  {
    exists j | 0 <= j < |columns| :: NotAField(columns[j], model)
  }

  /** For the exported columns the header always comes from the model field,
      and it fails exactly when some `list_display` name is an attribute of the
      model that is not a field. */
  lemma ValidFieldHeaders<Obj>(listDisplay: seq<Column>, model: ModelInfo<Obj>, fmt: Formatting)
    ensures var columns := ValidFields(listDisplay, model.attributes);
      && (HeaderFails(columns, model) <==> exists i | 0 <= i < |listDisplay| :: NotAField(listDisplay[i], model))
      && forall j | 0 <= j < |columns| && columns[j] in model.fields ::
           HeaderText(columns[j], model, fmt) == Some(Shaped(model.fieldHeader(columns[j]), fmt))
  {
    var columns := ValidFields(listDisplay, model.attributes);
    if i :| 0 <= i < |listDisplay| && NotAField(listDisplay[i], model) {
      var j :| 0 <= j < |columns| && columns[j] == listDisplay[i];
    }
  }

  // ---------------------------------------------------------------------------
  // Fixed-width wrapping

  /** The pieces `[s[i:i + n] for i in range(0, len(s), n)]`, read off from the front. */
  function Chunks(s: Text, n: nat): (r: seq<Text>)
    requires n > 0
    ensures r == [] <==> s == []
    ensures forall k :: 0 <= k < |r| ==> 0 < |r[k]| <= n
    decreases |s|
  {
    if s == [] then []
    else if |s| <= n then [s]
    else [s[..n]] + Chunks(s[n..], n)
  }

  /** There are `ceil(|s| / n)` pieces; each but the last has exactly `n`
      characters and the last has between 1 and `n`. */
  lemma {:induction false} ChunkSizes(s: Text, n: nat)
    requires n > 0
    ensures |Chunks(s, n)| == (|s| + n - 1) / n
    ensures forall k :: 0 <= k < |Chunks(s, n)| - 1 ==> |Chunks(s, n)[k]| == n
    ensures s != [] ==> 1 <= |Chunks(s, n)[|Chunks(s, n)| - 1]| <= n
    decreases |s|
  {
    if s == [] {
      DivModUnique(n - 1, n, 0, n - 1);
    } else if |s| <= n {
      DivModUnique(|s| + n - 1, n, 1, |s| - 1);
    } else {
      ChunkSizes(s[n..], n);
      DivAddDivisor(|s| - n + n - 1, n);
    }
  }

  /** Piece `k` is the slice `s[k*n : k*n + n]` of the list comprehension (a
      Python slice stops at the end of the string). */
  lemma {:induction false} ChunkAt(s: Text, n: nat, k: nat)
    requires n > 0 && k < |Chunks(s, n)|
    ensures k * n < |s|
    ensures Chunks(s, n)[k] == s[k * n .. if k * n + n <= |s| then k * n + n else |s|]
    decreases |s|
  {
    if k > 0 {
      assert |s| > n;
      var t := s[n..];
      assert Chunks(s, n) == [s[..n]] + Chunks(t, n);
      ChunkAt(t, n, k - 1);
      var lo := (k - 1) * n;
      assert k * n == lo + n;
      var hi := if lo + n <= |t| then lo + n else |t|;
      assert Chunks(s, n)[k] == t[lo..hi];
      assert t[lo..hi] == s[n + lo .. n + hi];
    }
  }

  /** Writing the pieces back to back without separators gives back `s`. */
  lemma {:induction false} ChunksConcat(s: Text, n: nat)
    requires n > 0
    ensures Concat(Chunks(s, n)) == s
    decreases |s|
  {
    if |s| > n {
      ChunksConcat(s[n..], n);
      assert s == s[..n] + s[n..];
    }
  }

  /** One (already shaped) cell value after wrapping at `maxChars` characters.
      A value no longer than `maxChars` is kept as it is. A longer one becomes
      its pieces joined by `<br/>`; with `maxChars == 0` Python's `range` raises
      `ValueError` (None here), and with a negative `maxChars` the range is empty
      so the cell becomes the empty string. */
  function Wrap(s: Text, maxChars: int): (r: Option<Text>)
    ensures r.None? <==> maxChars == 0 && |s| > 0
    ensures |s| <= maxChars ==> r == Some(s)
    ensures maxChars < 0 ==> r == Some([])
  {
    if |s| > maxChars then
      if maxChars == 0 then None
      else if maxChars < 0 then Some([])
      else Some(Join(LineBreak, Chunks(s, maxChars)))
    else Some(s)
  }

  /** The lines a positive width cuts `s` into: the value itself when it fits,
      else its pieces. */
  function WrapLines(s: Text, n: nat): seq<Text>
    requires n > 0
  {
    if |s| > n then Chunks(s, n) else [s]
  }

  /** With a positive width, the wrapped cell is its lines joined by `<br/>`;
      the lines written back to back are the value again; no line is longer than
      `n`, and every line but the last has exactly `n` characters. */
  lemma WrapRoundTrip(s: Text, n: nat)
    requires n > 0
    ensures Wrap(s, n) == Some(Join(LineBreak, WrapLines(s, n)))
    ensures Concat(WrapLines(s, n)) == s
    ensures forall k :: 0 <= k < |WrapLines(s, n)| ==> |WrapLines(s, n)[k]| <= n
    ensures forall k :: 0 <= k < |WrapLines(s, n)| - 1 ==> |WrapLines(s, n)[k]| == n
  {
    if |s| > n {
      ChunksConcat(s, n);
      ChunkSizes(s, n);
    } else {
      assert Concat([s]) == s + Concat([]);
    }
  }

  /** A value of 120 characters wrapped at 50 becomes three lines of 50, 50
      and 20 characters joined by two `<br/>` markers. */
  lemma WrapExample(s: Text)
    requires |s| == 120
    ensures Wrap(s, 50) == Some(s[..50] + LineBreak + s[50..100] + LineBreak + s[100..])
  {
    assert Chunks(s[100..], 50) == [s[100..]];
    assert s[50..][..50] == s[50..100];
    assert s[50..][50..] == s[100..];
    assert Chunks(s[50..], 50) == [s[50..100]] + Chunks(s[100..], 50);
    assert Chunks(s, 50) == [s[..50]] + Chunks(s[50..], 50);
    var a, b, c := s[..50], s[50..100], s[100..];
    assert [a, b, c][1..] == [b, c] && [b, c][1..] == [c];
    assert Join(LineBreak, [b, c]) == b + LineBreak + c;
    assert Join(LineBreak, [a, b, c]) == a + LineBreak + (b + LineBreak + c);
    assert Chunks(s, 50) == [a, b, c];
    assert Wrap(s, 50) == Some(Join(LineBreak, [a, b, c]));
    assert a + LineBreak + (b + LineBreak + c) == a + LineBreak + b + LineBreak + c;
  }

  // ---------------------------------------------------------------------------
  // The table

  /** The text of one body cell: the attribute's string, shaped, then wrapped. */
  function Cell<Obj>(obj: Obj, column: Column, model: ModelInfo<Obj>, fmt: Formatting): (r: Option<Text>)
    ensures r.None? <==> fmt.maxCharsPerLine == 0 && |Shaped(model.attrText(obj, column), fmt)| > 0
    ensures !fmt.rtl && |model.attrText(obj, column)| <= fmt.maxCharsPerLine ==> r == Some(model.attrText(obj, column))
    ensures fmt.maxCharsPerLine > 0 ==>
      r == Some(Join(LineBreak, WrapLines(Shaped(model.attrText(obj, column), fmt), fmt.maxCharsPerLine)))
  {
    var value := Shaped(model.attrText(obj, column), fmt);
    if fmt.maxCharsPerLine > 0 then
      WrapRoundTrip(value, fmt.maxCharsPerLine);
      Wrap(value, fmt.maxCharsPerLine)
    else Wrap(value, fmt.maxCharsPerLine)
  }

  /** Some cell cannot be wrapped, so building the table raises. */
  predicate WrapFails<Obj>(columns: seq<Column>, objs: seq<Obj>, model: ModelInfo<Obj>, fmt: Formatting)
  {
    exists i, j | 0 <= i < |objs| && 0 <= j < |columns| :: Cell(objs[i], columns[j], model, fmt).None?
  }

  /** Building the table raises exactly when the width is 0 and some shaped
      cell value is non-empty. */
  lemma WrapFailsIff<Obj>(columns: seq<Column>, objs: seq<Obj>, model: ModelInfo<Obj>, fmt: Formatting)
    ensures WrapFails(columns, objs, model, fmt) <==>
      fmt.maxCharsPerLine == 0 &&
      exists i, j | 0 <= i < |objs| && 0 <= j < |columns| :: |Shaped(model.attrText(objs[i], columns[j]), fmt)| > 0
  {
  }

  /** `data` is the table of `objs` over `columns`: one header row, then one row
      per object in queryset order, every row with one cell per column. */
  ghost predicate IsTableOf<Obj>(data: seq<Row>, columns: seq<Column>, objs: seq<Obj>,
                                 model: ModelInfo<Obj>, fmt: Formatting)
  {
    && |data| == |objs| + 1
    && |data[0]| == |columns|
    && (forall j :: 0 <= j < |columns| ==> HeaderText(columns[j], model, fmt) == Some(data[0][j]))
    && (forall i :: 1 <= i < |data| ==> |data[i]| == |columns|)
    && (forall i, j :: 0 <= i < |objs| && 0 <= j < |columns| ==>
          Cell(objs[i], columns[j], model, fmt) == Some(data[i + 1][j]))
  }

  /** Why building the table raises: `_meta.get_field` finds no field of
      that name, or `range` is given a step of 0 (`ValueError`). */
  datatype TableError = FieldDoesNotExist(column: Column) | ZeroLineWidth

  /** The header loop of `reshape_to_arabic`: fails at the first column that
      is an attribute but not a field, otherwise yields one header per column. */
  method BuildHeader<Obj>(columns: seq<Column>, model: ModelInfo<Obj>, fmt: Formatting)
    returns (headers: Result<Row, TableError>)
    ensures headers.Err? <==> HeaderFails(columns, model)
    ensures headers.Err? ==> headers.error.FieldDoesNotExist?
    ensures headers.Err? ==>
      exists j | 0 <= j < |columns| :: columns[j] == headers.error.column && NotAField(columns[j], model)
        && forall l | 0 <= l < j :: !NotAField(columns[l], model)
    ensures headers.Ok? ==> |headers.value| == |columns|
    ensures headers.Ok? ==> forall j :: 0 <= j < |columns| ==> HeaderText(columns[j], model, fmt) == Some(headers.value[j])
  {
    var row: Row := [];
    for j := 0 to |columns|
      invariant |row| == j
      invariant forall l :: 0 <= l < j ==> HeaderText(columns[l], model, fmt) == Some(row[l])
    {
      var header;
      if columns[j] in model.attributes {
        if columns[j] !in model.fields {
          // `_meta.get_field` raises FieldDoesNotExist
          return Err(FieldDoesNotExist(columns[j]));
        }
        header := model.fieldHeader(columns[j]);
      } else {
        header := model.capfirst(Humanize(columns[j]));
      }
      if fmt.rtl {
        header := fmt.shape(header);
      }
      row := row + [header];
    }
    headers := Ok(row);
  }

  /** The body loop of `reshape_to_arabic` for one object: fails when some
      cell cannot be wrapped, otherwise yields one cell per column. */
  method BuildRow<Obj>(obj: Obj, columns: seq<Column>, model: ModelInfo<Obj>, fmt: Formatting)
    returns (cells: Option<Row>)
    ensures cells.None? <==> exists j | 0 <= j < |columns| :: Cell(obj, columns[j], model, fmt).None?
    ensures cells.Some? ==> |cells.value| == |columns|
    ensures cells.Some? ==> forall j :: 0 <= j < |columns| ==> Cell(obj, columns[j], model, fmt) == Some(cells.value[j])
  {
    var row: Row := [];
    for j := 0 to |columns|
      invariant |row| == j
      invariant forall l :: 0 <= l < j ==> Cell(obj, columns[l], model, fmt) == Some(row[l])
    {
      var value := model.attrText(obj, columns[j]);
      if fmt.rtl {
        value := fmt.shape(value);
      }
      if |value| > fmt.maxCharsPerLine {
        if fmt.maxCharsPerLine == 0 {
          // range() with a step of 0 raises ValueError
          assert Cell(obj, columns[j], model, fmt).None?;
          return None;
        }
        var lines := if fmt.maxCharsPerLine < 0 then [] else Chunks(value, fmt.maxCharsPerLine);
        value := Join(LineBreak, lines);
      }
      row := row + [value];
    }
    cells := Some(row);
  }

  /** `reshape_to_arabic`: builds the header row, then each object's row cell
      by cell. Fails (the source raises) at the first column that is an
      attribute but not a field, else when some cell cannot be wrapped;
      otherwise returns the table of the objects. */
  method BuildTable<Obj>(columns: seq<Column>, objs: seq<Obj>, model: ModelInfo<Obj>, fmt: Formatting)
    returns (data: Result<seq<Row>, TableError>)
    ensures data.Err? <==> HeaderFails(columns, model) || WrapFails(columns, objs, model, fmt)
    ensures data.Err? ==> (data.error.FieldDoesNotExist? <==> HeaderFails(columns, model))
    ensures data.Err? && data.error.FieldDoesNotExist? ==>
      exists j | 0 <= j < |columns| :: columns[j] == data.error.column && NotAField(columns[j], model)
        && forall l | 0 <= l < j :: !NotAField(columns[l], model)
    ensures data.Ok? ==> IsTableOf(data.value, columns, objs, model, fmt)
  {
    var headers := BuildHeader(columns, model, fmt);
    if headers.Err? {
      return Err(headers.error);
    }
    var rows: seq<Row> := [headers.value];
    for i := 0 to |objs|
      invariant |rows| == i + 1 && rows[0] == headers.value
      invariant forall k :: 1 <= k < |rows| ==> |rows[k]| == |columns|
      invariant forall k, j :: 0 <= k < i && 0 <= j < |columns| ==>
        Cell(objs[k], columns[j], model, fmt) == Some(rows[k + 1][j])
    {
      var row := BuildRow(objs[i], columns, model, fmt);
      if row.None? {
        return Err(ZeroLineWidth);
      }
      rows := rows + [row.value];
    }
    data := Ok(rows);
  }
}
