/** The state of a NiceTable as a value, what `append` does to it, and column lookup. */
module Tables {
  import opened Wrappers
  import opened Strings
  import opened Values
  import opened Cells
  import opened Layouts

  /** Every attribute of a table: its formatting and layout name, and its row store with
      the running statistics `append` keeps per column. */
  datatype Table = Table(
    fmt: Formatting,
    layout: string,
    columns: seq<seq<Value>>,
    colNames: seq<string>,
    colAdjust: seq<Option<Adjust>>,
    colWidths: seq<nat>,
    colDigitsLeft: seq<nat>,
    colDigitsRight: seq<nat>,
    totalLines: nat,
    totalCols: nat)

  /** Every per-column list has one slot per column. */
  predicate Shaped(t: Table)
  {
    && |t.columns| == t.totalCols
    && |t.colNames| == t.totalCols
    && |t.colAdjust| == t.totalCols
    && |t.colWidths| == t.totalCols
    && |t.colDigitsLeft| == t.totalCols
    && |t.colDigitsRight| == t.totalCols
  }

  /** What every operation keeps: the lists are shaped and no column holds more values than
      `total_lines` (an `append` that raises part way leaves later columns one short). */
  predicate Valid(t: Table)
  {
    Shaped(t) && forall c | 0 <= c < t.totalCols :: |t.columns[c]| <= t.totalLines
  }

  /** Every column holds exactly `total_lines` values. */
  predicate Rectangular(t: Table)
  {
    Shaped(t) && forall c | 0 <= c < t.totalCols :: |t.columns[c]| == t.totalLines
  }

  /** The row store `__init__` builds for the given column names: no rows, no per-column
      adjustment, widths equal to the names' lengths and no digits seen. */
  function EmptyStore(fmt: Formatting, layout: string, names: seq<string>): (t: Table)
    ensures Rectangular(t) && t.totalLines == 0 && t.totalCols == |names|
    ensures t.fmt == fmt && t.layout == layout && t.colNames == names
    ensures forall c | 0 <= c < |names| ::
      && t.columns[c] == [] && t.colAdjust[c] == None && t.colWidths[c] == |names[c]|
      && t.colDigitsLeft[c] == 0 && t.colDigitsRight[c] == 0
  {
    Table(fmt, layout,
          seq(|names|, _ => []), names, seq(|names|, _ => None),
          seq(|names|, c requires 0 <= c < |names| => |names[c]|),
          seq(|names|, _ => 0), seq(|names|, _ => 0), 0, |names|)
  }

  /** A store built column by column, with each column as `EmptyStore` has it, is that store. */
  lemma EmptyStoreOf(fmt: Formatting, layout: string, names: seq<string>, cols: seq<seq<Value>>,
                     adj: seq<Option<Adjust>>, widths: seq<nat>, left: seq<nat>, right: seq<nat>)
    requires |cols| == |adj| == |widths| == |left| == |right| == |names|
    requires forall c | 0 <= c < |names| ::
      && cols[c] == [] && adj[c] == None && widths[c] == |names[c]| && left[c] == 0 && right[c] == 0
    ensures Table(fmt, layout, cols, names, adj, widths, left, right, 0, |names|)
            == EmptyStore(fmt, layout, names)
  {
    var e := EmptyStore(fmt, layout, names);
    assert cols == e.columns && adj == e.colAdjust && widths == e.colWidths;
    assert left == e.colDigitsLeft && right == e.colDigitsRight;
  }

  // ---------------------------------------------------------------------------------------
  // Cells of the table

  /** `col_adjust[pos] or data_adjust`: the column's own adjustment if one was set. */
  function EffectiveAdjust(t: Table, pos: nat): string
    requires pos < |t.colAdjust|
  {
    if t.colAdjust[pos].Some? then AdjustName(t.colAdjust[pos].value) else t.fmt.dataAdjust
  }

  /** The data cells of column `pos` can be formatted. */
  predicate AdjustOk(t: Table, pos: nat)
    requires pos < |t.colAdjust|
  {
    EffectiveAdjust(t, pos) in AdjustOptions
  }

  /** `_formatted_value(pos, value)`. */
  function FormattedValue(t: Table, pos: nat, v: Value): Result<string>
    requires Shaped(t) && pos < t.totalCols
  {
    FormattedElement(v, EffectiveAdjust(t, pos), t.colWidths[pos], t.fmt.dataMinLen, t.colDigitsRight[pos], Data)
  }

  /** `_formatted_column_name(pos)`: always under `header_adjust`, never a column's own. */
  function FormattedColumnName(t: Table, pos: nat): Result<string>
    requires Shaped(t) && pos < t.totalCols
  {
    FormattedElement(Text(t.colNames[pos]), t.fmt.headerAdjust, t.colWidths[pos], t.fmt.dataMinLen, t.colDigitsRight[pos], ColumnName)
  }

  /** A data cell uses the column's adjustment when one is set and `data_adjust` otherwise;
      it fails exactly when that adjustment is unknown. */
  lemma DataCellAdjust(t: Table, pos: nat, v: Value)
    requires Shaped(t) && pos < t.totalCols
    ensures t.colAdjust[pos].Some? ==>
      FormattedValue(t, pos, v) == FormattedElement(v, AdjustName(t.colAdjust[pos].value), t.colWidths[pos], t.fmt.dataMinLen, t.colDigitsRight[pos], Data)
    ensures t.colAdjust[pos].Some? ==> FormattedValue(t, pos, v).Success?
    ensures t.colAdjust[pos].None? ==>
      FormattedValue(t, pos, v) == FormattedElement(v, t.fmt.dataAdjust, t.colWidths[pos], t.fmt.dataMinLen, t.colDigitsRight[pos], Data)
  {
    if t.colAdjust[pos].Some? {
      ParseAdjustName(t.colAdjust[pos].value);
    }
  }

  // ---------------------------------------------------------------------------------------
  // append

  /** The argument of `append`: a Python list, or any other object. */
  datatype Input = ListOf(items: seq<Value>) | NotAList

  /** What column `j` receives: the supplied value, or `''` past the end of the list. */
  function CellAt(values: seq<Value>, j: nat): Value
  {
    if j < |values| then values[j] else Text("")
  }

  /** `col_digits_left` after seeing `v`: for a number, the length of `str(v)` or of its part
      before the point, if longer. */
  function LeftDigitsAfter(d: nat, v: Value): nat
  {
    if !v.Num? then d
    else
      var s := Str(v);
      var dot := Find(s, '.');
      if dot == -1 then Max(d, |s|) else Max(d, dot)
  }

  /** `col_digits_right` after seeing `v`: for a number with a point, the length of its part
      after the point, if longer. */
  function RightDigitsAfter(d: nat, v: Value): nat
  {
    if !v.Num? then d
    else
      var s := Str(v);
      var dot := Find(s, '.');
      if dot == -1 then d else Max(d, |s| - dot - 1)
  }

  /** In terms of a number's parts: the sign and whole digits feed the left count, the
      fraction digits the right count; a text value leaves both alone. */
  lemma DigitsOfValue(dl: nat, dr: nat, v: Value)
    ensures !v.Num? ==> LeftDigitsAfter(dl, v) == dl && RightDigitsAfter(dr, v) == dr
    ensures v.Num? ==> LeftDigitsAfter(dl, v) == Max(dl, |Sign(v)| + |v.whole|)
    ensures v.Num? && v.fraction.None? ==> RightDigitsAfter(dr, v) == dr
    ensures v.Num? && v.fraction.Some? ==> RightDigitsAfter(dr, v) == Max(dr, |v.fraction.value|)
  {
    if v.Num? {
      DotInStr(v);
    }
  }

  /** `col_widths[j]` after seeing `v`: the longer of the old width and the stripped cell. */
  function WidthAfter(t: Table, j: nat, v: Value): nat
    requires Shaped(t) && j < t.totalCols
  {
    match FormattedValue(t, j, v)
    case Success(f) => Max(t.colWidths[j], |Strip(f)|)
    case Failure(_) => t.colWidths[j]
  }

  /** The fields `append` leaves alone. */
  predicate SameFrame(t: Table, u: Table)
  {
    && u.fmt == t.fmt && u.layout == t.layout && u.colNames == t.colNames
    && u.colAdjust == t.colAdjust && u.totalCols == t.totalCols
  }

  /** One turn of the loop in `append`, for column `j`: add the value (or `''`), then, for a
      supplied value, grow the width to its stripped formatted cell and, for a number, the
      digit counts. Formatting raises for an unknown adjustment after the value was added. */
  function ProcessColumn(t: Table, values: seq<Value>, j: nat): (r: (Table, Outcome))
    requires Shaped(t) && j < t.totalCols
    ensures Shaped(r.0) && SameFrame(t, r.0) && r.0.totalLines == t.totalLines
  {
    if j >= |values| then
      (t.(columns := t.columns[j := t.columns[j] + [Text("")]]), Pass)
    else
      var v := values[j];
      var t1 := t.(columns := t.columns[j := t.columns[j] + [v]]);
      match FormattedValue(t1, j, v)
      case Failure(e) => (t1, Fail(e))
      case Success(f) =>
        var t2 := t1.(colWidths := t1.colWidths[j := Max(t1.colWidths[j], |Strip(f)|)]);
        (t2.(colDigitsLeft := t2.colDigitsLeft[j := LeftDigitsAfter(t2.colDigitsLeft[j], v)],
             colDigitsRight := t2.colDigitsRight[j := RightDigitsAfter(t2.colDigitsRight[j], v)]),
         Pass)
  }

  /** The loop of `append` over its first `k` columns, stopping at the first failure. */
  function Processed(t: Table, values: seq<Value>, k: nat): (r: (Table, Outcome))
    requires Shaped(t) && k <= t.totalCols
    ensures Shaped(r.0) && SameFrame(t, r.0) && r.0.totalLines == t.totalLines
    decreases k
  {
    if k == 0 then (t, Pass)
    else
      var p := Processed(t, values, k - 1);
      if p.1.Fail? then p else ProcessColumn(p.0, values, k - 1)
  }

  /** `append(values)`: a non-list raises TypeError and a list longer than `total_cols`
      raises ValueError, both before any change; otherwise `total_lines` grows by one and
      the loop runs over every column. */
  function AppendRow(t: Table, row: Input): (r: (Table, Outcome))
    requires Shaped(t)
    ensures Shaped(r.0) && SameFrame(t, r.0)
  {
    match row
    case NotAList => (t, Fail(TypeError))
    case ListOf(values) =>
      if |values| > t.totalCols then (t, Fail(ValueError))
      else Processed(t.(totalLines := t.totalLines + 1), values, t.totalCols)
  }

  /** A row of values `append` will run its loop on. */
  predicate Fits(t: Table, values: seq<Value>)
  {
    Shaped(t) && |values| <= t.totalCols
  }

  /** The first supplied column at or after `from` whose cells cannot be formatted, or
      `total_cols` when there is none. */
  function FirstBad(t: Table, values: seq<Value>, from: nat): (b: nat)
    requires Fits(t, values) && from <= |values|
    ensures b == t.totalCols || from <= b < |values|
    ensures b < t.totalCols ==> !AdjustOk(t, b)
    ensures forall j | from <= j < |values| && j < b :: AdjustOk(t, j)
    decreases |values| - from
  {
    if from == |values| then t.totalCols
    else if !AdjustOk(t, from) then from
    else FirstBad(t, values, from + 1)
  }

  /** `u` is `t` after the loop extended columns `[0, ext)` and updated the statistics
      of columns `[0, upd)`. */
  ghost predicate AfterColumns(t: Table, u: Table, values: seq<Value>, ext: nat, upd: nat)
    requires Shaped(t) && Shaped(u) && u.totalCols == t.totalCols && upd <= |values|
  {
    forall j | 0 <= j < t.totalCols ::
      && u.columns[j] == (if j < ext then t.columns[j] + [CellAt(values, j)] else t.columns[j])
      && u.colWidths[j] == (if j < upd then WidthAfter(t, j, values[j]) else t.colWidths[j])
      && u.colDigitsLeft[j] == (if j < upd then LeftDigitsAfter(t.colDigitsLeft[j], values[j]) else t.colDigitsLeft[j])
      && u.colDigitsRight[j] == (if j < upd then RightDigitsAfter(t.colDigitsRight[j], values[j]) else t.colDigitsRight[j])
  }

  function Min(a: int, b: int): int { if a < b then a else b }

  /** One turn of the loop changes column `j` only: it always adds the cell, and it
      updates the statistics, or fails, for a supplied value. */
  lemma ProcessColumnSpec(u: Table, values: seq<Value>, j: nat)
    requires Shaped(u) && j < u.totalCols
    ensures var r := ProcessColumn(u, values, j);
      && r.1 == (if j < |values| && !AdjustOk(u, j) then Fail(ValueError) else Pass)
      && r.0.columns == u.columns[j := u.columns[j] + [CellAt(values, j)]]
      && (if j < |values| && AdjustOk(u, j) then
            && r.0.colWidths == u.colWidths[j := WidthAfter(u, j, values[j])]
            && r.0.colDigitsLeft == u.colDigitsLeft[j := LeftDigitsAfter(u.colDigitsLeft[j], values[j])]
            && r.0.colDigitsRight == u.colDigitsRight[j := RightDigitsAfter(u.colDigitsRight[j], values[j])]
          else
            && r.0.colWidths == u.colWidths
            && r.0.colDigitsLeft == u.colDigitsLeft
            && r.0.colDigitsRight == u.colDigitsRight)
  {
    if j < |values| {
      var v := values[j];
      var u1 := u.(columns := u.columns[j := u.columns[j] + [v]]);
      assert FormattedValue(u1, j, v) == FormattedValue(u, j, v);
    }
  }

  /** The turn for column `i` moves the description of the loop's progress one column on. */
  lemma StepColumns(t: Table, u: Table, values: seq<Value>, i: nat, upd: nat)
    requires Shaped(t) && Shaped(u) && SameFrame(t, u) && i < t.totalCols
    requires upd <= i && upd <= |values| && (i < |values| ==> upd == i)
    requires AfterColumns(t, u, values, i, upd)
    ensures var r := ProcessColumn(u, values, i);
      && r.1 == (if i < |values| && !AdjustOk(t, i) then Fail(ValueError) else Pass)
      && AfterColumns(t, r.0, values, i + 1, if i < |values| && AdjustOk(t, i) then i + 1 else upd)
  {
    ProcessColumnSpec(u, values, i);
    var r := ProcessColumn(u, values, i);
    assert EffectiveAdjust(u, i) == EffectiveAdjust(t, i);
    var upd' := if i < |values| && AdjustOk(t, i) then i + 1 else upd;
    if i < |values| {
      assert FormattedValue(u, i, values[i]) == FormattedValue(t, i, values[i]);
    }
    forall j | 0 <= j < t.totalCols
      ensures && r.0.columns[j] == (if j < i + 1 then t.columns[j] + [CellAt(values, j)] else t.columns[j])
              && r.0.colWidths[j] == (if j < upd' then WidthAfter(t, j, values[j]) else t.colWidths[j])
              && r.0.colDigitsLeft[j] == (if j < upd' then LeftDigitsAfter(t.colDigitsLeft[j], values[j]) else t.colDigitsLeft[j])
              && r.0.colDigitsRight[j] == (if j < upd' then RightDigitsAfter(t.colDigitsRight[j], values[j]) else t.colDigitsRight[j])
    {
    }
  }

  /** The progress of the loop after its first `k` turns, given its result `r` and the
      first failing column `b`: the columns up to `b` got their cell, the supplied ones
      before `b` their statistics, and the loop failed exactly when `b` was among the
      first `k`. */
  ghost predicate Progress(t: Table, values: seq<Value>, r: (Table, Outcome), k: nat, b: nat)
    requires Shaped(t) && Shaped(r.0) && r.0.totalCols == t.totalCols && |values| <= t.totalCols
  {
    && r.1 == (if b < k then Fail(ValueError) else Pass)
    && AfterColumns(t, r.0, values, Min(k, b + 1), Min(k, Min(b, |values|)))
  }

  /** `Progress` of the loop's own result after `k` turns, with `FirstBad` as the
      first failing column. */
  ghost predicate ProgressAfter(t: Table, values: seq<Value>, k: nat)
  {
    Fits(t, values) && k <= t.totalCols && Progress(t, values, Processed(t, values, k), k, FirstBad(t, values, 0))
  }

  /** One more turn keeps `ProgressAfter` true. */
  lemma ProgressStep(t: Table, values: seq<Value>, k: nat)
    requires ProgressAfter(t, values, k) && k < t.totalCols
    ensures ProgressAfter(t, values, k + 1)
  {
    var b := FirstBad(t, values, 0);
    var p := Processed(t, values, k);
    if p.1.Pass? {
      ProcessedRunning(t, values, k);
      ProgressStepRunning(t, values, p, k, b);
    } else {
      ProcessedAfterFail(t, values, k);
      ProgressStepStopped(t, values, p, k, b);
    }
  }

  /** The turn after a failed one is skipped. */
  lemma ProcessedAfterFail(t: Table, values: seq<Value>, k: nat)
    requires Shaped(t) && k < t.totalCols && Processed(t, values, k).1.Fail?
    ensures Processed(t, values, k + 1) == Processed(t, values, k)
  {
  }

  /** The turn after a successful one handles the next column. */
  lemma ProcessedRunning(t: Table, values: seq<Value>, k: nat)
    requires Shaped(t) && k < t.totalCols && Processed(t, values, k).1.Pass?
    ensures Processed(t, values, k + 1) == ProcessColumn(Processed(t, values, k).0, values, k)
  {
  }

  /** A turn after a failure changes nothing. */
  lemma ProgressStepStopped(t: Table, values: seq<Value>, p: (Table, Outcome), k: nat, b: nat)
    requires Shaped(t) && Shaped(p.0) && p.0.totalCols == t.totalCols && |values| <= t.totalCols
    requires k < t.totalCols && p.1.Fail? && Progress(t, values, p, k, b)
    ensures Progress(t, values, p, k + 1, b)
  {
    assert b < k;
    assert Min(k + 1, b + 1) == Min(k, b + 1);
    assert Min(k + 1, Min(b, |values|)) == Min(k, Min(b, |values|));
  }

  /** A turn while the loop runs handles column `k`. */
  lemma ProgressStepRunning(t: Table, values: seq<Value>, p: (Table, Outcome), k: nat, b: nat)
    requires Fits(t, values) && b == FirstBad(t, values, 0)
    requires Shaped(p.0) && SameFrame(t, p.0)
    requires k < t.totalCols && p.1.Pass? && Progress(t, values, p, k, b)
    ensures Progress(t, values, ProcessColumn(p.0, values, k), k + 1, b)
  {
    assert b >= k;
    var upd := Min(k, |values|);
    assert AfterColumns(t, p.0, values, k, upd);
    StepColumns(t, p.0, values, k, upd);
    var r := ProcessColumn(p.0, values, k);
    var upd' := if k < |values| && AdjustOk(t, k) then k + 1 else upd;
    assert Min(k + 1, b + 1) == k + 1;
    assert Min(k + 1, Min(b, |values|)) == upd' by {
      if k < |values| {
        if AdjustOk(t, k) { assert b != k; } else { assert b == k; }
      } else {
        assert b == t.totalCols;
      }
    }
    assert r.1 == (if b < k + 1 then Fail(ValueError) else Pass) by {
      if k < |values| && !AdjustOk(t, k) { assert b == k; }
      else if k < |values| { assert b != k; }
      else { assert b == t.totalCols; }
    }
  }

  /** Before its first turn the loop has changed nothing. */
  lemma ProgressStart(t: Table, values: seq<Value>)
    requires Fits(t, values)
    ensures ProgressAfter(t, values, 0)
  {
    assert Processed(t, values, 0) == (t, Pass);
    assert AfterColumns(t, t, values, 0, 0);
  }

  /** After the loop's first `k` turns its progress is as `ProgressAfter` describes. */
  lemma {:induction false} ProcessedSpec(t: Table, values: seq<Value>, k: nat)
    requires Fits(t, values) && k <= t.totalCols
    ensures ProgressAfter(t, values, k)
  {
    if k > 0 {
      var j := k - 1;
      ProcessedSpec(t, values, j);
      ProgressStep(t, values, j);
      assert j + 1 == k;
    } else {
      ProgressStart(t, values);
    }
  }

  /** `append` on a list within the arity runs the loop on the table with `total_lines`
      already one higher. */
  function Bumped(t: Table): Table
  {
    t.(totalLines := t.totalLines + 1)
  }

  /** What `append` does. A rejected argument changes nothing. Otherwise the loop's
      progress over all columns is as `ProgressAfter` describes, on the table whose
      `total_lines` grew by one, `FirstBad` naming the first column that cannot be
      formatted. */
  lemma AppendRowSpec(t: Table, row: Input)
    requires Shaped(t)
    ensures row.NotAList? ==> AppendRow(t, row) == (t, Fail(TypeError))
    ensures row.ListOf? && |row.items| > t.totalCols ==> AppendRow(t, row) == (t, Fail(ValueError))
    ensures row.ListOf? && |row.items| <= t.totalCols ==>
      && AppendRow(t, row) == Processed(Bumped(t), row.items, t.totalCols)
      && FirstBad(Bumped(t), row.items, 0) == FirstBad(t, row.items, 0)
      && ProgressAfter(Bumped(t), row.items, t.totalCols)
  {
    if row.ListOf? && |row.items| <= t.totalCols {
      FirstBadSame(t, Bumped(t), row.items, 0);
      ProcessedSpec(Bumped(t), row.items, t.totalCols);
    }
  }

  /** `append` succeeds exactly on a list within the arity whose supplied values all have
      a known adjustment. */
  lemma AppendSucceedsIff(t: Table, row: Input)
    requires Shaped(t)
    ensures AppendRow(t, row).1.Pass? <==>
      row.ListOf? && |row.items| <= t.totalCols && forall j | 0 <= j < |row.items| :: AdjustOk(t, j)
  {
    AppendRowSpec(t, row);
    if row.ListOf? && |row.items| <= t.totalCols {
      var b := FirstBad(t, row.items, 0);
      if b < t.totalCols {
        assert !AdjustOk(t, b);
      }
    }
  }

  /** A successful `append` adds one value to every column: the supplied one, or `''`
      past the end of the list; so every column keeps `total_lines` values. */
  lemma AppendAddsRow(t: Table, row: Input)
    requires Shaped(t) && AppendRow(t, row).1.Pass?
    ensures var u := AppendRow(t, row).0;
      && row.ListOf? && u.totalLines == t.totalLines + 1
      && (forall j | 0 <= j < t.totalCols :: u.columns[j] == t.columns[j] + [CellAt(row.items, j)])
      && (Rectangular(t) ==> Rectangular(u))
  {
    AppendRowSpec(t, row);
    var u := AppendRow(t, row).0;
    var b := FirstBad(t, row.items, 0);
    assert AfterColumns(Bumped(t), u, row.items, Min(t.totalCols, b + 1), Min(t.totalCols, Min(b, |row.items|)));
  }

  /** After a successful `append` each supplied column's width is the larger of the old
      width and the stripped formatted value, and its digit counts are updated from the
      value; the other columns keep theirs. */
  lemma AppendStatistics(t: Table, row: Input)
    requires Shaped(t) && AppendRow(t, row).1.Pass?
    ensures var u := AppendRow(t, row).0;
      && row.ListOf?
      && forall j | 0 <= j < t.totalCols ::
        && u.colWidths[j] == (if j < |row.items| then WidthAfter(t, j, row.items[j]) else t.colWidths[j])
        && u.colDigitsLeft[j] == (if j < |row.items| then LeftDigitsAfter(t.colDigitsLeft[j], row.items[j]) else t.colDigitsLeft[j])
        && u.colDigitsRight[j] == (if j < |row.items| then RightDigitsAfter(t.colDigitsRight[j], row.items[j]) else t.colDigitsRight[j])
  {
    AppendRowSpec(t, row);
    var u := AppendRow(t, row).0;
    var b := FirstBad(t, row.items, 0);
    assert AfterColumns(Bumped(t), u, row.items, Min(t.totalCols, b + 1), Min(t.totalCols, Min(b, |row.items|)));
    assert b == t.totalCols;
    forall j | 0 <= j < t.totalCols && j < |row.items|
      ensures WidthAfter(Bumped(t), j, row.items[j]) == WidthAfter(t, j, row.items[j])
    {
      assert FormattedValue(Bumped(t), j, row.items[j]) == FormattedValue(t, j, row.items[j]);
    }
  }

  /** Whatever the outcome, `append` never lowers a width or a digit count, keeps the
      table valid, and changes neither the names, the adjustments nor the formatting. */
  lemma AppendMonotone(t: Table, row: Input)
    requires Valid(t)
    ensures var u := AppendRow(t, row).0;
      && Valid(u) && SameFrame(t, u)
      && forall j | 0 <= j < t.totalCols ::
        && u.colWidths[j] >= t.colWidths[j]
        && u.colDigitsLeft[j] >= t.colDigitsLeft[j]
        && u.colDigitsRight[j] >= t.colDigitsRight[j]
  {
    AppendRowSpec(t, row);
    if row.ListOf? && |row.items| <= t.totalCols {
      var u := AppendRow(t, row).0;
      var b := FirstBad(t, row.items, 0);
      assert AfterColumns(Bumped(t), u, row.items, Min(t.totalCols, b + 1), Min(t.totalCols, Min(b, |row.items|)));
    }
  }

  /** `FirstBad` reads only the adjustments. */
  lemma {:induction false} FirstBadSame(t: Table, u: Table, values: seq<Value>, from: nat)
    requires Shaped(t) && Shaped(u) && u.fmt == t.fmt && u.colAdjust == t.colAdjust && u.totalCols == t.totalCols
    requires |values| <= t.totalCols && from <= |values|
    ensures FirstBad(u, values, from) == FirstBad(t, values, from)
    decreases |values| - from
  {
    if from < |values| {
      assert EffectiveAdjust(u, from) == EffectiveAdjust(t, from);
      FirstBadSame(t, u, values, from + 1);
    }
  }

  /** For a supplied value with a known adjustment, the width `append` records is that of
      the cell's text with surrounding whitespace removed: padding never counts. */
  lemma WidthAfterIsStrippedText(t: Table, j: nat, v: Value)
    requires Shaped(t) && j < t.totalCols && AdjustOk(t, j)
    ensures WidthAfter(t, j, v) ==
      Max(t.colWidths[j], |Strip(CellText(v, ParseAdjust(EffectiveAdjust(t, j)).value, Data, t.colDigitsRight[j]))|)
  {
    FormattedElementStrip(v, EffectiveAdjust(t, j), t.colWidths[j], t.fmt.dataMinLen, t.colDigitsRight[j], Data);
  }

  // ---------------------------------------------------------------------------------------
  // Addressing a column

  /** The first argument of `set_col_adjust` and `get_column`: an int position, a str
      name, or an object of any other type. */
  datatype ColKey = ByIndex(i: int) | ByName(name: string) | OtherKey

  /** `names.index(n)`: the first position holding `n`, or None where Python raises. */
  function IndexOf(names: seq<string>, n: string): (r: Option<nat>)
    ensures r.None? <==> n !in names
    ensures r.Some? ==> r.value < |names| && names[r.value] == n && n !in names[..r.value]
  {
    if |names| == 0 then None
    else if names[0] == n then Some(0)
    else
      var r := IndexOf(names[1..], n);
      if r.None? then None
      else
        assert names[..r.value + 1] == [names[0]] + names[1..][..r.value];
        Some(r.value + 1)
  }

  /** The list slot an int position addresses: negative positions count from the end,
      and a position outside the list raises IndexError. */
  function PositionOf(len: nat, i: int): (r: Result<nat>)
    ensures r.Success? <==> -(len as int) <= i < len
    ensures r.Success? ==> r.value < len && r.value == (if i >= 0 then i else len + i)
    ensures r.Failure? ==> r.error == IndexError
  {
    if 0 <= i < len then Success(i)
    else if -(len as int) <= i < 0 then Success(len + i)
    else Failure(IndexError)
  }

  /** The column a key addresses, or the exception: IndexError for a position out of
      range, ValueError for an unknown name, TypeError for a key of another type. */
  function ResolveColumn(names: seq<string>, key: ColKey): (r: Result<nat>)
    ensures r.Success? ==> r.value < |names|
    ensures key.ByName? ==>
      && (r.Success? <==> key.name in names)
      && (r.Success? ==> names[r.value] == key.name && key.name !in names[..r.value])
      && (r.Failure? ==> r.error == ValueError)
    ensures key.ByIndex? ==> r == PositionOf(|names|, key.i)
    ensures key.OtherKey? ==> r == Failure(TypeError)
  {
    match key
    case ByName(n) => (match IndexOf(names, n) case Some(k) => Success(k) case None => Failure(ValueError))
    case ByIndex(i) => PositionOf(|names|, i)
    case OtherKey => Failure(TypeError)
  }

  /** A key lands on the same column whichever way it is written: by a name's first
      occurrence, by its position, or by that position counted from the end. */
  lemma ResolveColumnForms(names: seq<string>, i: nat)
    requires i < |names| && names[i] !in names[..i]
    ensures ResolveColumn(names, ByName(names[i])) == Success(i)
    ensures ResolveColumn(names, ByIndex(i)) == Success(i)
    ensures ResolveColumn(names, ByIndex(i - |names|)) == Success(i)
  {
    assert names[i] in names;
  }

  // ---------------------------------------------------------------------------------------
  // get_column and set_col_adjust

  /** `get_column(col)`: the values stored for the column the key addresses. */
  function ColumnOf(t: Table, key: ColKey): (r: Result<seq<Value>>)
    requires Shaped(t)
    ensures r.Success? <==> ResolveColumn(t.colNames, key).Success?
    ensures r.Failure? ==> r.error == ResolveColumn(t.colNames, key).error
  {
    match ResolveColumn(t.colNames, key)
    case Failure(e) => Failure(e)
    case Success(pos) => Success(t.columns[pos])
  }

  /** After a successful `append`, every column reads back as before with the row's cell
      (or `''`) at its end. */
  lemma AppendThenColumn(t: Table, row: Input, key: ColKey)
    requires Shaped(t) && AppendRow(t, row).1.Pass?
    ensures var u := AppendRow(t, row).0;
            ColumnOf(u, key).Success? == ColumnOf(t, key).Success? &&
            (ColumnOf(t, key).Success? ==>
              ColumnOf(u, key).value ==
                ColumnOf(t, key).value + [CellAt(row.items, ResolveColumn(t.colNames, key).value)])
  {
    AppendAddsRow(t, row);
  }

  /** `set_col_adjust(col, adjust)`: validate the adjustment, then find the column and
      record it there. */
  function AdjustColumn(t: Table, key: ColKey, adjust: string): (r: (Table, Outcome))
    requires Shaped(t)
    ensures Shaped(r.0)
    ensures r.1.Pass? <==> adjust in AdjustOptions && ResolveColumn(t.colNames, key).Success?
    ensures r.1.Fail? ==> r.0 == t
    ensures r.1.Fail? ==>
      r.1.error == if adjust !in AdjustOptions then ValueError else ResolveColumn(t.colNames, key).error
  {
    match ParseAdjust(adjust)
    case None => (t, Fail(ValueError))
    case Some(a) =>
      match ResolveColumn(t.colNames, key)
      case Failure(e) => (t, Fail(e))
      case Success(pos) => (t.(colAdjust := t.colAdjust[pos := Some(a)]), Pass)
  }

  /** A successful `set_col_adjust` writes the addressed column's `col_adjust` slot and no
      other, so that column's data cells use `adjust` and nothing else changes: column names still use `header_adjust`, other
      columns keep theirs, and the stored rows and statistics stay. */
  lemma AdjustColumnEffect(t: Table, key: ColKey, adjust: string)
    requires Shaped(t) && AdjustColumn(t, key, adjust).1.Pass?
    ensures var u := AdjustColumn(t, key, adjust).0;
            var pos := ResolveColumn(t.colNames, key).value;
            && u == t.(colAdjust := u.colAdjust)
            && u.colAdjust == t.colAdjust[pos := ParseAdjust(adjust)]
            && EffectiveAdjust(u, pos) == adjust
            && (forall c | 0 <= c < t.totalCols && c != pos :: EffectiveAdjust(u, c) == EffectiveAdjust(t, c))
            && (forall c | 0 <= c < t.totalCols :: FormattedColumnName(u, c) == FormattedColumnName(t, c))
            && (forall v :: FormattedValue(u, pos, v).Success?)
  {
    var u := AdjustColumn(t, key, adjust).0;
    var pos := ResolveColumn(t.colNames, key).value;
    assert u.colAdjust[pos] == ParseAdjust(adjust);
    forall v
      ensures FormattedValue(u, pos, v).Success?
    {
      DataCellAdjust(u, pos, v);
    }
  }

  /** Once a turn of `append`'s loop raises, the later turns do not run. */
  lemma ProcessedStops(t: Table, values: seq<Value>, k: nat, m: nat)
    requires Shaped(t) && k <= m <= t.totalCols && Processed(t, values, k).1.Fail?
    ensures Processed(t, values, m) == Processed(t, values, k)
  {
    var j := k;
    while j < m
      invariant k <= j <= m && Processed(t, values, j) == Processed(t, values, k)
    {
      ProcessedAfterFail(t, values, j);
      j := j + 1;
    }
  }
}
