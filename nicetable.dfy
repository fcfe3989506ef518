/** The NiceTable object: its attributes as fields and its methods, each proved against the
    functions that describe it on a snapshot of those fields. */
module NiceTableClass {
  import opened Wrappers
  import opened Strings
  import opened Values
  import opened Cells
  import opened Layouts
  import opened Tables
  import opened Render

  class NiceTable {
    // The thirteen formatting attributes, `header` to `sepline_char`
    var fmt: Formatting
    // The name of the layout last selected
    var layout: string
    // The row store, one list per column, and the statistics `append` keeps
    var columns: seq<seq<Value>>
    var colNames: seq<string>
    var colAdjust: seq<Option<Adjust>>
    var colWidths: seq<nat>
    var colDigitsLeft: seq<nat>
    var colDigitsRight: seq<nat>
    var totalLines: nat
    var totalCols: nat

    /** Every attribute as a value. */
    function Snapshot(): Table
      reads this
    {
      Table(fmt, layout, columns, colNames, colAdjust, colWidths, colDigitsLeft, colDigitsRight,
            totalLines, totalCols)
    }

    /** The invariant every method keeps. */
    predicate Valid()
      reads this
    {
      Tables.Valid(Snapshot())
    }

    /** An object with the default formatting and no columns; `New` completes `__init__`. */
    constructor Init()
      ensures Snapshot() == EmptyStore(Defaults(), "default", [])
    {
      layout := "default";
      columns, colNames, colAdjust := [], [], [];
      colWidths, colDigitsLeft, colDigitsRight := [], [], [];
      totalLines, totalCols := 0, 0;
      new;
      SetFormattingDefaults();
    }

    /** `__init__`: the defaults, then the layout (default "default"), then every explicit
        formatting argument, then an empty column per name; an unknown layout raises
        ValueError and no object results. */
    static method New(columnsName: seq<string>, layoutArg: Option<string>, opts: Overrides)
      returns (r: Result<NiceTable>)
      ensures var name := if layoutArg.Some? then layoutArg.value else "default";
        && (r.Failure? <==> name !in LayoutNames)
        && (r.Failure? ==> r.error == ValueError)
        && (r.Success? ==>
              && fresh(r.value)
              && r.value.Valid()
              && r.value.Snapshot()
                 == EmptyStore(Override(Preset(ParseLayout(name).value, Defaults()), opts), name, columnsName))
    {
      var t := new NiceTable.Init();
      var name := Pick(layoutArg, "default");
      var outcome := t.SetLayout(name);
      if outcome.Fail? {
        return Failure(outcome.error);
      }
      ghost var l := ParseLayout(name).value;
      assert t.fmt == Preset(l, Defaults()) && t.layout == name;
      t.ApplyOverrides(opts);
      ghost var f := Override(Preset(l, Defaults()), opts);
      assert t.fmt == f && t.layout == name;
      t.ResetStore(columnsName);
      assert t.fmt == f && t.layout == name;
      assert t.Snapshot() == EmptyStore(f, name, columnsName);
      return Success(t);
    }

    /** `_set_formatting_defaults`. */
    method SetFormattingDefaults()
      modifies this`fmt
      ensures fmt == Defaults()
    {
      fmt := Formatting(
        header := true, headerSepline := true, headerAdjust := "left",
        topBorder := true, bottomBorder := true, leftBorder := true, rightBorder := true,
        dataAdjust := "auto", dataMinLen := 1, valueSpacing := 2,
        valueSep := "|", seplineSep := "+", seplineChar := "-");
    }

    /** `self.x = coalesce(x, self.x)` for every formatting argument of `__init__`. */
    method ApplyOverrides(opts: Overrides)
      modifies this`fmt
      ensures fmt == Override(old(fmt), opts)
    {
      fmt := fmt.(
        header := Pick(opts.header, fmt.header),
        headerSepline := Pick(opts.headerSepline, fmt.headerSepline),
        headerAdjust := Pick(opts.headerAdjust, fmt.headerAdjust),
        topBorder := Pick(opts.topBorder, fmt.topBorder),
        bottomBorder := Pick(opts.bottomBorder, fmt.bottomBorder),
        leftBorder := Pick(opts.leftBorder, fmt.leftBorder),
        rightBorder := Pick(opts.rightBorder, fmt.rightBorder),
        dataAdjust := Pick(opts.dataAdjust, fmt.dataAdjust),
        dataMinLen := Pick(opts.dataMinLen, fmt.dataMinLen),
        valueSpacing := Pick(opts.valueSpacing, fmt.valueSpacing),
        valueSep := Pick(opts.valueSep, fmt.valueSep),
        seplineSep := Pick(opts.seplineSep, fmt.seplineSep),
        seplineChar := Pick(opts.seplineChar, fmt.seplineChar));
    }

    /** The tail of `__init__`: the row store for the names, one column at a time. */
    method ResetStore(names: seq<string>)
      modifies this`columns, this`colNames, this`colAdjust, this`colWidths, this`colDigitsLeft,
               this`colDigitsRight, this`totalLines, this`totalCols
      ensures Snapshot() == EmptyStore(fmt, layout, names)
    {
      var cols: seq<seq<Value>>, adj: seq<Option<Adjust>>, widths: seq<nat> := [], [], [];
      var left: seq<nat>, right: seq<nat> := [], [];
      for i := 0 to |names|
        invariant |cols| == |adj| == |widths| == |left| == |right| == i
        invariant forall c | 0 <= c < i ::
          && cols[c] == [] && adj[c] == None && widths[c] == |names[c]| && left[c] == 0 && right[c] == 0
      {
        cols := cols + [[]];
        adj := adj + [None];
        widths := widths + [|names[i]|];
        left := left + [0];
        right := right + [0];
      }
      columns, colNames, colAdjust := cols, names, adj;
      colWidths, colDigitsLeft, colDigitsRight := widths, left, right;
      totalLines := 0;
      totalCols := |names|;
      EmptyStoreOf(fmt, layout, names, cols, adj, widths, left, right);
    }

    /** The `layout` setter: an unknown name raises ValueError and changes nothing;
        a known one applies its preset to the current formatting and is recorded. */
    method SetLayout(name: string) returns (r: Outcome)
      modifies this`fmt, this`layout
      ensures ParseLayout(name).None? ==> r == Fail(ValueError) && fmt == old(fmt) && layout == old(layout)
      ensures ParseLayout(name).Some? ==> r == Pass && fmt == Preset(ParseLayout(name).value, old(fmt)) && layout == name
    {
      match ParseLayout(name)
      case None =>
        return Fail(ValueError);
      case Some(l) =>
        match l {
          case Csv => LayoutAsCsv();
          case Default => LayoutAsDefault();
          case Grepable => LayoutAsGrepable();
          case Md => LayoutAsMd();
          case Tsv => LayoutAsTsv();
        }
        layout := name;
        return Pass;
    }

    /** `_layout_as_default`: the formatting is left as it is. */
    method LayoutAsDefault()
      modifies this`fmt
      ensures fmt == old(fmt)
    {
    }

    /** `_layout_as_csv`. */
    method LayoutAsCsv()
      modifies this`fmt
      ensures fmt == AsCsv(old(fmt))
    {
      fmt := fmt.(headerSepline := false, headerAdjust := "compact", dataAdjust := "compact",
                  valueSep := ",", valueSpacing := 0, topBorder := false, bottomBorder := false,
                  leftBorder := false, rightBorder := false);
    }

    /** `_layout_as_tsv`: the csv layout with a tab between values. */
    method LayoutAsTsv()
      modifies this`fmt
      ensures fmt == AsTsv(old(fmt))
    {
      LayoutAsCsv();
      fmt := fmt.(valueSep := "\t");
    }

    /** `_layout_as_grepable`: the tsv formatting without the header. */
    method LayoutAsGrepable()
      modifies this`fmt
      ensures fmt == AsGrepable(old(fmt))
    {
      LayoutAsCsv();
      fmt := fmt.(valueSep := "\t");
      fmt := fmt.(header := false);
    }

    /** `_layout_as_md`. */
    method LayoutAsMd()
      modifies this`fmt
      ensures fmt == AsMd(old(fmt))
    {
      fmt := fmt.(seplineSep := "|", bottomBorder := false, dataMinLen := 3);
    }

    /** `append(values)`: the new state and outcome are those `AppendRow` describes, even
        when a cell raises part way through the row. */
    method Append(row: Input) returns (r: Outcome)
      requires Valid()
      modifies this`columns, this`colWidths, this`colDigitsLeft, this`colDigitsRight, this`totalLines
      ensures (Snapshot(), r) == AppendRow(old(Snapshot()), row)
      ensures Valid()
    {
      ghost var t := Snapshot();
      AppendMonotone(t, row);
      if row.NotAList? {
        return Fail(TypeError);
      }
      var values := row.items;
      if |values| > totalCols {
        return Fail(ValueError);
      }
      totalLines := totalLines + 1;
      assert Snapshot() == Bumped(t);
      r := AppendValues(values);
    }

    /** The loop of `append` over every column, on a store whose `total_lines` was already
        bumped: it ends at the first cell that raises. */
    method AppendValues(values: seq<Value>) returns (r: Outcome)
      requires Tables.Shaped(Snapshot())
      modifies this`columns, this`colWidths, this`colDigitsLeft, this`colDigitsRight
      ensures (Snapshot(), r) == Processed(old(Snapshot()), values, totalCols)
    {
      ghost var start := Snapshot();
      for i := 0 to totalCols
        invariant Processed(start, values, i) == (Snapshot(), Pass)
      {
        r := AppendToColumn(values, i);
        if r.Fail? {
          ProcessedStops(start, values, i + 1, start.totalCols);
          return;
        }
      }
      return Pass;
    }

    /** One turn of the loop in `append`: store the value (or `''`) in column `i` and, for
        a supplied value, update that column's width and digit counts. */
    method AppendToColumn(values: seq<Value>, i: nat) returns (r: Outcome)
      requires Tables.Shaped(Snapshot()) && i < totalCols
      modifies this`columns, this`colWidths, this`colDigitsLeft, this`colDigitsRight
      ensures (Snapshot(), r) == ProcessColumn(old(Snapshot()), values, i)
    {
      ghost var t := Snapshot();
      if i >= |values| {
        columns := columns[i := columns[i] + [Text("")]];
        assert Snapshot() == t.(columns := t.columns[i := t.columns[i] + [Text("")]]);
        return Pass;
      }
      var value := values[i];
      columns := columns[i := columns[i] + [value]];
      ghost var t1 := Snapshot();
      assert t1 == t.(columns := t.columns[i := t.columns[i] + [value]]);
      var cell := FormattedValue(Snapshot(), i, value);
      if cell.Failure? {
        return Fail(cell.error);
      }
      colWidths := colWidths[i := Max(colWidths[i], |Strip(cell.value)|)];
      ghost var t2 := Snapshot();
      assert t2 == t1.(colWidths := t1.colWidths[i := Max(t1.colWidths[i], |Strip(cell.value)|)]);
      CountDigits(i, value);
      assert Snapshot() == t2.(colDigitsLeft := t2.colDigitsLeft[i := LeftDigitsAfter(t2.colDigitsLeft[i], value)],
                               colDigitsRight := t2.colDigitsRight[i := RightDigitsAfter(t2.colDigitsRight[i], value)]);
      return Pass;
    }

    /** The digit counts of column `i` after seeing `value`: `str(value)` split at its
        first point. */
    method CountDigits(i: nat, value: Value)
      requires i < |colDigitsLeft| && i < |colDigitsRight|
      modifies this`colDigitsLeft, this`colDigitsRight
      ensures colDigitsLeft == old(colDigitsLeft)[i := LeftDigitsAfter(old(colDigitsLeft)[i], value)]
      ensures colDigitsRight == old(colDigitsRight)[i := RightDigitsAfter(old(colDigitsRight)[i], value)]
    {
      if value.Num? {
        var s := Str(value);
        var dot := Find(s, '.');
        if dot == -1 {
          colDigitsLeft := colDigitsLeft[i := Max(colDigitsLeft[i], |s|)];
        } else {
          colDigitsLeft := colDigitsLeft[i := Max(colDigitsLeft[i], |s[..dot]|)];
          colDigitsRight := colDigitsRight[i := Max(colDigitsRight[i], |s[dot + 1..]|)];
        }
      }
      assert colDigitsLeft == old(colDigitsLeft)[i := LeftDigitsAfter(old(colDigitsLeft)[i], value)];
      assert colDigitsRight == old(colDigitsRight)[i := RightDigitsAfter(old(colDigitsRight)[i], value)];
    }

    /** `set_col_adjust(col, adjust)`: the new state and outcome are those `AdjustColumn`
        describes. */
    method SetColAdjust(key: ColKey, adjust: string) returns (r: Outcome)
      requires Valid()
      modifies this
      ensures (Snapshot(), r) == AdjustColumn(old(Snapshot()), key, adjust)
      ensures Valid()
    {
      if adjust !in AdjustOptions {
        return Fail(ValueError);
      }
      match ResolveColumn(colNames, key)
      case Failure(e) =>
        return Fail(e);
      case Success(pos) =>
        colAdjust := colAdjust[pos := ParseAdjust(adjust)];
        return Pass;
    }

    /** `get_column(col)`: the list stored for the addressed column, or the exception the
        key raises. */
    function GetColumn(key: ColKey): (r: Result<seq<Value>>)
      reads this
      requires Valid()
      ensures r.Success? <==> ResolveColumn(colNames, key).Success?
      ensures r.Success? ==> r.value == columns[ResolveColumn(colNames, key).value]
    {
      ColumnOf(Snapshot(), key)
    }

    /** `__str__`: the table as text; it raises exactly when some cell it shows cannot be
        formatted. */
    function ToString(): (r: Result<string>)
      reads this
      requires Valid()
      ensures r.Success? <==> Renderable(Snapshot())
    {
      RenderSucceedsIff(Snapshot());
      ToStr(Snapshot())
    }
  }
}
