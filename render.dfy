/** `__str__` and the line generators behind it, as pure functions of the table's state:
    the cells are formatted here, and laid out into lines as `Lines` describes. */
module Render {
  import opened Wrappers
  import opened Strings
  import opened Values
  import opened Cells
  import opened Layouts
  import opened Tables
  import opened Lines

  // ---------------------------------------------------------------------------------------
  // The formatted cells

  /** The formatted column names, or the ValueError an unknown `header_adjust` raises
      (a table without columns formats none). */
  function HeaderCells(t: Table): (r: Result<seq<string>>)
    requires Shaped(t)
    ensures r.Success? <==> t.totalCols == 0 || t.fmt.headerAdjust in AdjustOptions
    ensures r.Failure? ==> r.error == ValueError
    ensures r.Success? ==> |r.value| == t.totalCols
  {
    var rs := seq(|t.colNames|, i requires 0 <= i < |t.colNames| => FormattedColumnName(t, i));
    AllOkSpec(rs);
    assert t.totalCols > 0 ==> rs[0] == FormattedColumnName(t, 0);
    AllOk(rs)
  }

  /** The `i`-th header cell is column `i`'s formatted name. */
  lemma HeaderCellsSpec(t: Table)
    requires Shaped(t) && HeaderCells(t).Success?
    ensures forall i | 0 <= i < t.totalCols :: FormattedColumnName(t, i) == Success(HeaderCells(t).value[i])
  {
    var rs := seq(|t.colNames|, i requires 0 <= i < |t.colNames| => FormattedColumnName(t, i));
    assert HeaderCells(t) == AllOk(rs);
    AllOkSpec(rs);
  }

  /** `self.columns[col][line]`, raising IndexError for a column left short. */
  function StoredValue(t: Table, col: nat, line: nat): Result<Value>
    requires Shaped(t) && col < t.totalCols
  {
    if line < |t.columns[col]| then Success(t.columns[col][line]) else Failure(IndexError)
  }

  /** The calls that format the cells of one stored row, one per column. */
  function RowCalls(t: Table, line: nat): (rs: seq<Result<string>>)
    requires Shaped(t)
    ensures |rs| == t.totalCols
  {
    seq(t.totalCols, c requires 0 <= c < t.totalCols =>
      match StoredValue(t, c, line)
      case Failure(e) => Failure(e)
      case Success(v) => FormattedValue(t, c, v))
  }

  /** The formatted cells of one stored row. */
  function RowCells(t: Table, line: nat): Result<seq<string>>
    requires Shaped(t)
  {
    AllOk(RowCalls(t, line))
  }

  /** A stored row formats exactly when each column holds that line and has a known
      adjustment, its `c`-th cell being column `c`'s formatted value; in a rectangular
      table the only error is a ValueError. */
  lemma RowCellsSucceedIff(t: Table, line: nat)
    requires Shaped(t)
    ensures RowCells(t, line).Success? <==>
      forall c | 0 <= c < t.totalCols :: line < |t.columns[c]| && AdjustOk(t, c)
    ensures RowCells(t, line).Success? ==>
      |RowCells(t, line).value| == t.totalCols &&
      forall c | 0 <= c < t.totalCols :: FormattedValue(t, c, t.columns[c][line]) == Success(RowCells(t, line).value[c])
    ensures RowCells(t, line).Failure? && line < t.totalLines && Rectangular(t) ==>
      RowCells(t, line).error == ValueError
  {
    var rs := RowCalls(t, line);
    AllOkSpec(rs);
    forall c | 0 <= c < t.totalCols
      ensures rs[c].Success? <==> line < |t.columns[c]| && AdjustOk(t, c)
      ensures rs[c].Failure? && line < |t.columns[c]| ==> rs[c].error == ValueError
    {
    }
  }

  /** The cells of every stored row, in order. */
  function RowsCells(t: Table): (r: seq<Result<seq<string>>>)
    requires Shaped(t)
    ensures |r| == t.totalLines
  {
    seq(t.totalLines, l requires 0 <= l < t.totalLines => RowCells(t, l))
  }

  // ---------------------------------------------------------------------------------------
  // The line generators and `__str__`

  /** `_generate_header_line`. */
  function HeaderLine(t: Table): (r: Result<string>)
    requires Shaped(t)
    ensures r.Success? <==> HeaderCells(t).Success?
  {
    match HeaderCells(t)
    case Failure(e) => Failure(e)
    case Success(cells) => Success(CellLine(t.fmt, cells))
  }

  /** `_generate_sepline`. */
  function Sepline(t: Table): (r: Result<string>)
    requires Shaped(t)
    ensures r.Success? <==> HeaderCells(t).Success?
  {
    match HeaderCells(t)
    case Failure(e) => Failure(e)
    case Success(cells) => Success(SeplineOf(t.fmt, cells))
  }

  /** The header line as the list of header lines `__str__` writes: none when `header` is
      off. */
  function HeaderLines(t: Table): (r: Result<seq<string>>)
    requires Shaped(t)
    ensures r.Success? <==> !t.fmt.header || HeaderCells(t).Success?
    ensures r.Success? ==> |r.value| == Flag(t.fmt.header)
  {
    if !t.fmt.header then Success([])
    else match HeaderLine(t) case Failure(e) => Failure(e) case Success(h) => Success([h])
  }

  /** The line showing one stored row. */
  function DataLine(t: Table, line: nat): Result<string>
    requires Shaped(t)
  {
    match RowCells(t, line)
    case Failure(e) => Failure(e)
    case Success(cells) => Success(CellLine(t.fmt, cells))
  }

  /** `_generate_data_lines`: the rows formatted in order, the first failure ending it. */
  function DataLines(t: Table): (r: Result<seq<string>>)
    requires Shaped(t)
  {
    match AllOk(RowsCells(t))
    case Failure(e) => Failure(e)
    case Success(rc) => Success(DataSection(t.fmt, rc))
  }

  /** One data line per stored row, the `l`-th showing row `l`. */
  lemma DataLinesSpec(t: Table)
    requires Shaped(t) && DataLines(t).Success?
    ensures |DataLines(t).value| == t.totalLines
    ensures forall l | 0 <= l < t.totalLines :: DataLine(t, l) == Success(DataLines(t).value[l])
  {
    AllOkSpec(RowsCells(t));
  }

  /** The lines of `__str__` before they are joined. */
  function OutLines(t: Table): Result<seq<string>>
    requires Shaped(t)
  {
    LinesOf(t.fmt, HeaderCells(t), RowsCells(t))
  }

  /** `__str__`: the lines joined by newlines, with one newline at the end. */
  function ToStr(t: Table): Result<string>
    requires Shaped(t)
  {
    match OutLines(t)
    case Failure(e) => Failure(e)
    case Success(out) => Success(Join("\n", out) + "\n")
  }

  /** A successful `__str__` writes the separator, header and data lines in their fixed
      order. */
  lemma OutLinesLayout(t: Table)
    requires Shaped(t) && OutLines(t).Success?
    ensures Sepline(t).Success? && HeaderLines(t).Success? && DataLines(t).Success?
    ensures OutLines(t).value ==
      Assemble(t.fmt.topBorder, t.fmt.headerSepline, t.fmt.bottomBorder, Sepline(t).value, HeaderLines(t).value, DataLines(t).value)
  {
  }

  /** `__str__` fails exactly when the column names or a data line cannot be formatted:
      the separator line formats the column names even when the header is off. */
  lemma OutLinesSucceedIff(t: Table)
    requires Shaped(t)
    ensures OutLines(t).Success? <==> HeaderCells(t).Success? && DataLines(t).Success?
    ensures OutLines(t).Failure? ==>
      OutLines(t).error == if HeaderCells(t).Failure? then HeaderCells(t).error else DataLines(t).error
  {
  }

  // ---------------------------------------------------------------------------------------
  // When `__str__` succeeds

  /** Every cell `__str__` formats can be formatted: the column names when there are any,
      and every stored cell of every line up to `total_lines`. */
  predicate Renderable(t: Table)
    requires Shaped(t)
  {
    && (t.totalCols == 0 || t.fmt.headerAdjust in AdjustOptions)
    && (t.totalLines > 0 ==> forall c | 0 <= c < t.totalCols :: AdjustOk(t, c) && t.totalLines <= |t.columns[c]|)
  }

  /** `__str__` succeeds exactly when the table is renderable; in a rectangular table, the
      shape every successful `append` keeps, a failure is a ValueError. */
  lemma RenderSucceedsIff(t: Table)
    requires Shaped(t)
    ensures ToStr(t).Success? <==> Renderable(t)
    ensures ToStr(t).Failure? && Rectangular(t) ==> ToStr(t).error == ValueError
  {
    var rows := RowsCells(t);
    LinesSucceedIff(t.fmt, HeaderCells(t), rows);
    RowsSucceedIff(t);
    if Rectangular(t) && HeaderCells(t).Success? && AllOk(rows).Failure? {
      RowsFailWithValueError(t);
    }
  }

  /** Every stored row formats exactly when every line up to `total_lines` is held by
      every column and every column's adjustment is known. */
  lemma RowsSucceedIff(t: Table)
    requires Shaped(t)
    ensures (forall l | 0 <= l < t.totalLines :: RowsCells(t)[l].Success?) <==>
      (t.totalLines > 0 ==> forall c | 0 <= c < t.totalCols :: AdjustOk(t, c) && t.totalLines <= |t.columns[c]|)
  {
    var rows := RowsCells(t);
    forall l | 0 <= l < t.totalLines
      ensures rows[l].Success? <==> forall c | 0 <= c < t.totalCols :: l < |t.columns[c]| && AdjustOk(t, c)
    {
      RowCellsSucceedIff(t, l);
    }
    if t.totalLines > 0 && (forall l | 0 <= l < t.totalLines :: rows[l].Success?) {
      assert rows[t.totalLines - 1].Success?;
    }
  }

  /** In a rectangular table the first row that fails to format fails with a ValueError. */
  lemma RowsFailWithValueError(t: Table)
    requires Rectangular(t) && AllOk(RowsCells(t)).Failure?
    ensures AllOk(RowsCells(t)).error == ValueError
  {
    var rows := RowsCells(t);
    AllOkSpec(rows);
    var l :| 0 <= l < |rows| && rows[l] == Failure(AllOk(rows).error) && forall j | 0 <= j < l :: rows[j].Success?;
    RowCellsSucceedIff(t, l);
  }

  // ---------------------------------------------------------------------------------------
  // The lines of `__str__`

  /** `__str__` writes one line per stored row plus one per frame section switched on. */
  lemma OutLinesCount(t: Table)
    requires Shaped(t) && OutLines(t).Success?
    ensures |OutLines(t).value| == FrameLines(t.fmt) + t.totalLines
    ensures forall l | 0 <= l < t.totalLines ::
      DataLine(t, l).Success? &&
      OutLines(t).value[Flag(t.fmt.topBorder) + Flag(t.fmt.header) + Flag(t.fmt.headerSepline) + l] == DataLine(t, l).value
  {
    var rows := RowsCells(t);
    LinesCount(t.fmt, HeaderCells(t), rows);
    AllOkSpec(rows);
    forall l | 0 <= l < t.totalLines
      ensures DataLine(t, l) == Success(CellLine(t.fmt, AllOk(rows).value[l]))
    {
      assert rows[l] == RowCells(t, l);
    }
  }

  /** Formatting that leaves `header_adjust`, `data_adjust` and `data_min_len` alone leaves
      every formatted cell as it was. */
  lemma CellsKeep(t: Table, u: Table)
    requires Shaped(t)
    requires u == t.(fmt := u.fmt)
    requires u.fmt.headerAdjust == t.fmt.headerAdjust && u.fmt.dataAdjust == t.fmt.dataAdjust
    requires u.fmt.dataMinLen == t.fmt.dataMinLen
    ensures Shaped(u)
    ensures HeaderCells(u) == HeaderCells(t) && RowsCells(u) == RowsCells(t)
  {
    assert Shaped(u);
    assert forall i | 0 <= i < t.totalCols :: FormattedColumnName(u, i) == FormattedColumnName(t, i);
    assert seq(|u.colNames|, i requires 0 <= i < |u.colNames| => FormattedColumnName(u, i))
        == seq(|t.colNames|, i requires 0 <= i < |t.colNames| => FormattedColumnName(t, i));
    forall l: nat
      ensures RowCells(u, l) == RowCells(t, l)
    {
      assert forall c | 0 <= c < t.totalCols :: StoredValue(u, c, l) == StoredValue(t, c, l);
      assert forall c, v | 0 <= c < t.totalCols :: FormattedValue(u, c, v) == FormattedValue(t, c, v);
      assert RowCalls(u, l) == RowCalls(t, l);
    }
    assert RowsCells(u) == RowsCells(t);
  }

  /** `t` with the frame flag `which` (0 top border, 1 header, 2 header separator, 3 bottom
      border) set to `b`. */
  function WithFlag(t: Table, which: nat, b: bool): (u: Table)
    requires which < 4
  {
    t.(fmt := SetFlag(t.fmt, which, b))
  }

  /** Setting a frame flag keeps every formatted cell. */
  lemma WithFlagCells(t: Table, which: nat, b: bool)
    requires Shaped(t) && which < 4
    ensures var u := WithFlag(t, which, b);
            Shaped(u) && HeaderCells(u) == HeaderCells(t) && RowsCells(u) == RowsCells(t) &&
            OutLines(u) == LinesOf(SetFlag(t.fmt, which, b), HeaderCells(t), RowsCells(t))
  {
    SetFlagFields(t.fmt, which, b);
    var u := WithFlag(t, which, b);
    CellsKeep(t, u);
    assert OutLines(u) == LinesOf(u.fmt, HeaderCells(u), RowsCells(u));
  }

  /** The lines of `t` as its cells make them, and its separator and header lines. */
  lemma OutLinesOfCells(t: Table)
    requires Shaped(t) && HeaderCells(t).Success?
    ensures OutLines(t) == LinesOf(t.fmt, HeaderCells(t), RowsCells(t))
    ensures Sepline(t) == Success(SeplineOf(t.fmt, HeaderCells(t).value))
    ensures HeaderLine(t) == Success(CellLine(t.fmt, HeaderCells(t).value))
  {
  }

  /** Turning `top_border` on puts the separator line before everything else. */
  lemma TopBorderToggle(t: Table)
    requires Shaped(t) && OutLines(t).Success?
    ensures var on, off := WithFlag(t, 0, true), WithFlag(t, 0, false);
            OutLines(on).Success? && OutLines(off).Success? &&
            OutLines(on).value == [Sepline(t).value] + OutLines(off).value
  {
    OutLinesOfCells(t);
    WithFlagCells(t, 0, true);
    WithFlagCells(t, 0, false);
    TopBorderLines(t.fmt, HeaderCells(t), RowsCells(t));
  }

  /** Turning `bottom_border` on puts the separator line after everything else. */
  lemma BottomBorderToggle(t: Table)
    requires Shaped(t) && OutLines(t).Success?
    ensures var on, off := WithFlag(t, 3, true), WithFlag(t, 3, false);
            OutLines(on).Success? && OutLines(off).Success? &&
            OutLines(on).value == OutLines(off).value + [Sepline(t).value]
  {
    OutLinesOfCells(t);
    WithFlagCells(t, 3, true);
    WithFlagCells(t, 3, false);
    BottomBorderLines(t.fmt, HeaderCells(t), RowsCells(t));
  }

  /** Turning `header_sepline` on inserts the separator line just before the data lines. */
  lemma HeaderSeplineToggle(t: Table)
    requires Shaped(t) && OutLines(t).Success?
    ensures var on, off := WithFlag(t, 2, true), WithFlag(t, 2, false);
            OutLines(on).Success? && OutLines(off).Success? &&
            InsertedAt(OutLines(off).value, Flag(t.fmt.topBorder) + Flag(t.fmt.header), Sepline(t).value,
                       OutLines(on).value)
  {
    OutLinesOfCells(t);
    WithFlagCells(t, 2, true);
    WithFlagCells(t, 2, false);
    HeaderSeplineLines(t.fmt, HeaderCells(t), RowsCells(t));
  }

  /** Turning `header` off drops the header line and nothing else: the separator under it
      stays when `header_sepline` is on. */
  lemma HeaderToggle(t: Table)
    requires Shaped(t) && OutLines(t).Success? && t.fmt.header
    ensures var off := WithFlag(t, 1, false);
            OutLines(off).Success? &&
            RemovedAt(OutLines(t).value, Flag(t.fmt.topBorder), HeaderLine(t).value, OutLines(off).value)
  {
    OutLinesOfCells(t);
    WithFlagCells(t, 1, false);
    HeaderOffLines(t.fmt, HeaderCells(t), RowsCells(t));
  }

  // ---------------------------------------------------------------------------------------
  // Lines and newlines

  /** No text the table shows holds a newline. */
  predicate NewlineFree(t: Table)
  {
    && '\n' !in t.fmt.valueSep && '\n' !in t.fmt.seplineSep && '\n' !in t.fmt.seplineChar
    && (forall i | 0 <= i < |t.colNames| :: '\n' !in t.colNames[i])
    && (forall c, l | 0 <= c < |t.columns| && 0 <= l < |t.columns[c]| :: '\n' !in Str(t.columns[c][l]))
  }

  /** No header cell of a newline-free table holds a newline. */
  lemma HeaderCellsAvoidNewline(t: Table)
    requires Shaped(t) && NewlineFree(t) && HeaderCells(t).Success?
    ensures forall i | 0 <= i < |HeaderCells(t).value| :: '\n' !in HeaderCells(t).value[i]
  {
    var f := t.fmt;
    HeaderCellsSpec(t);
    forall i | 0 <= i < |HeaderCells(t).value|
      ensures '\n' !in HeaderCells(t).value[i]
    {
      FormattedElementAvoids(Text(t.colNames[i]), f.headerAdjust, t.colWidths[i], f.dataMinLen,
                             t.colDigitsRight[i], ColumnName, '\n');
    }
  }

  /** No cell of a stored row of a newline-free table holds a newline. */
  lemma RowCellsAvoidNewline(t: Table, line: nat)
    requires Shaped(t) && NewlineFree(t) && RowCells(t, line).Success?
    ensures forall c | 0 <= c < |RowCells(t, line).value| :: '\n' !in RowCells(t, line).value[c]
  {
    var f := t.fmt;
    var cells := RowCells(t, line).value;
    RowCellsSucceedIff(t, line);
    forall c | 0 <= c < |cells|
      ensures '\n' !in cells[c]
    {
      FormattedElementAvoids(t.columns[c][line], EffectiveAdjust(t, c), t.colWidths[c], f.dataMinLen,
                             t.colDigitsRight[c], Data, '\n');
    }
  }

  /** Splitting the string `__str__` returns at its newlines gives back exactly the lines
      it was made of, when no value, name or separator holds a newline. */
  lemma RenderSplitsIntoLines(t: Table)
    requires Shaped(t) && NewlineFree(t) && OutLines(t).Success?
    requires FrameLines(t.fmt) + t.totalLines > 0
    ensures ToStr(t).Success? && SplitLines(ToStr(t).value) == OutLines(t).value
  {
    var rows := RowsCells(t);
    LinesCount(t.fmt, HeaderCells(t), rows);
    HeaderCellsAvoidNewline(t);
    forall l | 0 <= l < |rows| && rows[l].Success?
      ensures forall i | 0 <= i < |rows[l].value| :: '\n' !in rows[l].value[i]
    {
      RowCellsAvoidNewline(t, l);
    }
    LinesAvoid(t.fmt, HeaderCells(t), rows, '\n');
    SplitJoinedLines(OutLines(t).value);
  }

  // ---------------------------------------------------------------------------------------
  // Widths and side borders

  /** With a one-character `sepline_char` and a `sepline_sep` as long as `value_sep`, the
      separator line is exactly as wide as the header line. */
  lemma SeplineMatchesHeader(t: Table)
    requires Shaped(t) && Sepline(t).Success?
    requires |t.fmt.seplineChar| == 1 && |t.fmt.seplineSep| == |t.fmt.valueSep|
    ensures HeaderLine(t).Success? && |Sepline(t).value| == |HeaderLine(t).value|
  {
    SeplineWidth(t.fmt, HeaderCells(t).value);
  }

  /** `t` with its left (`front`) or right border switched to `b`. */
  function WithBorder(t: Table, front: bool, b: bool): Table
  {
    t.(fmt := WithSide(t.fmt, front, b))
  }

  /** Switching one side border on adds the same width to every line at that side, as the
      border tests strip `|  ` from the front or `  |` from the end of each line, when
      `sepline_char` is one character and `sepline_sep` is as long as `value_sep`. */
  lemma SideBorderToggle(t: Table, front: bool)
    requires Shaped(t) && OutLines(t).Success?
    requires |t.fmt.seplineChar| == 1 && |t.fmt.seplineSep| == |t.fmt.valueSep|
    ensures var on, off := WithBorder(t, front, true), WithBorder(t, front, false);
            Shaped(on) && Shaped(off) && OutLines(on).Success? && OutLines(off).Success? &&
            |OutLines(on).value| == |OutLines(off).value| &&
            forall i | 0 <= i < |OutLines(on).value| ::
              Extended(OutLines(on).value[i], OutLines(off).value[i], BorderWidth(t.fmt), front)
  {
    WithSideFields(t.fmt, front, true);
    WithSideFields(t.fmt, front, false);
    CellsKeep(t, WithBorder(t, front, true));
    CellsKeep(t, WithBorder(t, front, false));
    SideBorderLines(t.fmt, front, HeaderCells(t), RowsCells(t));
  }

  /** A fresh default table writes the separator line, the header line, and the separator
      line twice more: under the header and as the bottom border. */
  lemma FreshTableLines(names: seq<string>)
    ensures var t := EmptyStore(Defaults(), "default", names);
            OutLines(t).Success? &&
            OutLines(t).value == [Sepline(t).value, HeaderLine(t).value, Sepline(t).value, Sepline(t).value]
  {
    var t := EmptyStore(Defaults(), "default", names);
    var f := Defaults();
    assert f.topBorder && f.header && f.headerSepline && f.bottomBorder;
    assert f.headerAdjust in AdjustOptions;
    FullFrameNoRows(t);
  }

  /** With no data rows and all four frame lines switched on, `__str__` writes the separator
      line, the header line, and the separator line twice more. */
  lemma FullFrameNoRows(t: Table)
    requires Shaped(t) && t.totalLines == 0 && HeaderCells(t).Success?
    requires t.fmt.topBorder && t.fmt.header && t.fmt.headerSepline && t.fmt.bottomBorder
    ensures OutLines(t).Success? &&
            OutLines(t).value == [Sepline(t).value, HeaderLine(t).value, Sepline(t).value, Sepline(t).value]
  {
    var hc := HeaderCells(t).value;
    assert RowsCells(t) == [];
    assert Sepline(t).value == SeplineOf(t.fmt, hc);
    assert HeaderLine(t).value == CellLine(t.fmt, hc);
    FullFrameNoRowLines(t.fmt, HeaderCells(t));
  }
}
